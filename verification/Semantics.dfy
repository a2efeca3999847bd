/** The three-valued meaning of conditions and of the statements printed for them. */
module Semantics {
  import opened Conditions
  import opened Tokens
  import opened Printing
  import opened Parsing

  /** The truth values of section 8.12 of SQL-92, with its tables for AND and OR. */
  datatype Truth = True | False | Unknown

  function Conj(a: Truth, b: Truth): Truth {
    if a == False || b == False then False
    else if a == Unknown || b == Unknown then Unknown
    else True
  }

  function Disj(a: Truth, b: Truth): Truth {
    if a == True || b == True then True
    else if a == Unknown || b == Unknown then Unknown
    else False
  }

  function Combine(op: LogicOperator, ts: seq<Truth>): Truth {
    if ts == [] then (if op == And then True else False)
    else if op == And then Conj(ts[0], Combine(op, ts[1..]))
    else Disj(ts[0], Combine(op, ts[1..]))
  }

  /** AND is true if all its parts are and false if one is false; OR is true if one part is and false if all are
      false; otherwise both are unknown. */
  lemma {:induction false} CombineExact(ts: seq<Truth>)
    ensures Combine(And, ts) == True <==> forall t <- ts :: t == True
    ensures Combine(And, ts) == False <==> False in ts
    ensures Combine(Or, ts) == True <==> True in ts
    ensures Combine(Or, ts) == False <==> forall t <- ts :: t == False
  {
    if ts != [] {
      CombineExact(ts[1..]);
      assert ts == [ts[0]] + ts[1..];
      assert ts[0] in ts && forall t <- ts[1..] :: t in ts;
      assert (forall t <- ts :: t == True) <==> ts[0] == True && forall t <- ts[1..] :: t == True;
      assert (forall t <- ts :: t == False) <==> ts[0] == False && forall t <- ts[1..] :: t == False;
    }
  }

  /** A row, the server's clock and the comparison operators; `Invalid` stands for NULL. */
  datatype Env = Env(
    row: string -> Variant,
    now: Variant,
    compare: (CompareOperator, Variant, Variant) -> Truth)

  type Bindings = map<string, Variant>

  /** A placeholder nothing is bound to is NULL. */
  function Lookup(b: Bindings, p: string): Variant {
    if p in b then b[p] else Invalid
  }

  /** The form in which a value reaches the driver: a UUID travels as text. */
  function DriverForm(v: Variant): Variant {
    if v.Uuid? then Text(v.id) else v
  }

  // ----- the meaning of a condition tree -----

  /** What a leaf compares its column with; `user` binds the placeholders the caller named. */
  function LeafValue(c: Condition, env: Env, user: Bindings): Variant {
    if c.comparedColumn != "" then env.row(c.comparedColumn)
    else if c.value == Now then env.now
    else if c.value != Invalid then DriverForm(c.value)
    else if c.placeholder != "" then Lookup(user, c.placeholder)
    else Invalid
  }

  function Meaning(c: Condition, env: Env, user: Bindings): Truth
    decreases c, 1
  {
    if c.subs == [] then env.compare(c.compareOp, env.row(c.column), LeafValue(c, env, user))
    else Combine(c.logicOp, Meanings(c.subs, env, user))
  }

  function Meanings(cs: seq<Condition>, env: Env, user: Bindings): (ts: seq<Truth>)
    ensures |ts| == |cs|
    decreases cs, 0
  {
    if cs == [] then [] else [Meaning(cs[0], env, user)] + Meanings(cs[1..], env, user)
  }

  // ----- the meaning of a parsed search condition -----

  function OperandValue(t: Token, env: Env, b: Bindings): Variant {
    match t
    case Name(s) => env.row(s)
    case Param(p) => Lookup(b, p)
    case NowCall => env.now
    case _ => Invalid
  }

  function Eval(e: Expr, env: Env, b: Bindings): Truth
    decreases e, 1
  {
    match e
    case Comparison(column, op, right) => env.compare(op, env.row(column), OperandValue(right, env, b))
    case Junction(op, args) => Combine(op, EvalAll(args, env, b))
  }

  function EvalAll(es: seq<Expr>, env: Env, b: Bindings): (ts: seq<Truth>)
    ensures |ts| == |es|
    decreases es, 0
  {
    if es == [] then [] else [Eval(es[0], env, b)] + EvalAll(es[1..], env, b)
  }

  // ----- bindings -----

  predicate BoundTo(b: Bindings, k: nat, v: Variant) {
    Placeholder(k) in b && b[Placeholder(k)] == DriverForm(v)
  }

  /** The placeholders from `k` on are bound to the given values. */
  ghost predicate Resolves(vals: seq<Variant>, k: nat, b: Bindings) {
    forall i :: 0 <= i < |vals| ==> BoundTo(b, k + i, vals[i])
  }

  lemma ResolvesSplit(u: seq<Variant>, v: seq<Variant>, k: nat, b: Bindings)
    requires Resolves(u + v, k, b)
    ensures Resolves(u, k, b) && Resolves(v, k + |u|, b)
  {
    forall i | 0 <= i < |u|
      ensures BoundTo(b, k + i, u[i])
    {
      assert (u + v)[i] == u[i];
    }
    forall i | 0 <= i < |v|
      ensures BoundTo(b, k + |u| + i, v[i])
    {
      assert (u + v)[|u| + i] == v[i];
      assert BoundTo(b, k + (|u| + i), v[i]);
    }
  }

  /** Both binding maps treat the caller's placeholders alike. */
  ghost predicate SameForUser(a: Bindings, b: Bindings) {
    forall p :: UserPlaceholder(p) ==> Lookup(a, p) == Lookup(b, p)
  }

  /** Main theorem of the printer: what the printed condition means under the bindings is what the tree means. */
  lemma {:induction false} MeaningPreserved(c: Condition, k: nat, env: Env, b: Bindings, user: Bindings)
    requires WellFormed(c) && Resolves(Values(c), k, b) && SameForUser(b, user)
    ensures Eval(Collapsed(c, k), env, b) == Meaning(c, env, user)
    decreases c, 1
  {
    if c.subs == [] {
      if Binds(c) {
        assert BoundTo(b, k + 0, Values(c)[0]);
      }
    } else {
      MeaningsPreserved(c.subs, k, env, b, user);
      if |c.subs| == 1 {
        assert CollapsedList(c.subs, k)[0] == Collapsed(c.subs[0], k);
        assert EvalAll(CollapsedList(c.subs, k), env, b)[0] == Eval(Collapsed(c.subs[0], k), env, b);
        var ts := Meanings(c.subs, env, user);
        assert Combine(c.logicOp, ts[1..]) == if c.logicOp == And then True else False;
        assert Meaning(c, env, user) == ts[0];
      }
    }
  }

  lemma {:induction false} MeaningsPreserved(cs: seq<Condition>, k: nat, env: Env, b: Bindings, user: Bindings)
    requires (forall c <- cs :: WellFormed(c)) && Resolves(ValuesOf(cs), k, b) && SameForUser(b, user)
    ensures EvalAll(CollapsedList(cs, k), env, b) == Meanings(cs, env, user)
    decreases cs, 0
  {
    if cs != [] {
      var k' := k + |Values(cs[0])|;
      ResolvesSplit(Values(cs[0]), ValuesOf(cs[1..]), k, b);
      MeaningPreserved(cs[0], k, env, b, user);
      MeaningsPreserved(cs[1..], k', env, b, user);
      assert CollapsedList(cs, k)[1..] == CollapsedList(cs[1..], k');
    }
  }

  // ----- the bindings the builders make -----

  /** What `bindValue(i, list[i])` for every `i` in order leaves in a query that already had bindings `before`. */
  function BoundUpTo(before: Bindings, list: seq<Variant>, n: nat): Bindings
    requires n <= |list|
  {
    if n == 0 then before
    else
      var b := BoundUpTo(before, list, n - 1);
      if list[n - 1] == Now then b else b[Placeholder(n - 1) := DriverForm(list[n - 1])]
  }

  function Bound(before: Bindings, list: seq<Variant>): Bindings {
    BoundUpTo(before, list, |list|)
  }

  lemma {:induction false} BoundUpToGets(before: Bindings, list: seq<Variant>, n: nat, i: nat)
    requires i < n <= |list| && list[i] != Now
    ensures Placeholder(i) in BoundUpTo(before, list, n)
    ensures BoundUpTo(before, list, n)[Placeholder(i)] == DriverForm(list[i])
  {
    if i < n - 1 {
      BoundUpToGets(before, list, n - 1, i);
      if Placeholder(i) == Placeholder(n - 1) {
        PlaceholderInjective(i, n - 1);
      }
    }
  }

  lemma {:induction false} BoundUpToKeeps(before: Bindings, list: seq<Variant>, n: nat, p: string)
    requires n <= |list|
    requires forall i :: 0 <= i < n ==> Placeholder(i) != p
    ensures Lookup(BoundUpTo(before, list, n), p) == Lookup(before, p)
  {
    if n > 0 {
      BoundUpToKeeps(before, list, n - 1, p);
    }
  }

  /** The list has at index `k` what the driver sees as `v`. */
  predicate Holds(list: seq<Variant>, k: nat, v: Variant) {
    k < |list| && list[k] != Now && DriverForm(list[k]) == DriverForm(v)
  }

  ghost predicate HoldsAll(list: seq<Variant>, k: nat, vals: seq<Variant>) {
    forall i :: 0 <= i < |vals| ==> Holds(list, k + i, vals[i])
  }

  /** Nothing is bound but what the caller named. */
  ghost predicate CallersOnly(b: Bindings) {
    forall p <- b :: UserPlaceholder(p)
  }

  lemma {:induction false} BoundUpToHas(before: Bindings, list: seq<Variant>, n: nat, k: nat)
    requires n <= |list| && CallersOnly(before)
    ensures Placeholder(k) in BoundUpTo(before, list, n) ==> k < n && list[k] != Now
  {
    if n == 0 {
      PlaceholderShape(k);
    } else {
      BoundUpToHas(before, list, n - 1, k);
      if Placeholder(k) == Placeholder(n - 1) {
        PlaceholderInjective(k, n - 1);
      }
    }
  }

  /** After the binding loop a generated placeholder is bound to a value exactly if the list has it at its index. */
  lemma BoundToExact(before: Bindings, list: seq<Variant>, k: nat, v: Variant)
    requires CallersOnly(before)
    ensures BoundTo(Bound(before, list), k, v) <==> Holds(list, k, v)
  {
    BoundUpToHas(before, list, |list|, k);
    if k < |list| && list[k] != Now {
      BoundUpToGets(before, list, |list|, k);
    }
  }

  lemma ResolvesExact(before: Bindings, list: seq<Variant>, k: nat, vals: seq<Variant>)
    requires CallersOnly(before)
    ensures Resolves(vals, k, Bound(before, list)) <==> HoldsAll(list, k, vals)
  {
    hide Bound, BoundTo, Holds;
    forall i | 0 <= i < |vals|
      ensures BoundTo(Bound(before, list), k + i, vals[i]) <==> Holds(list, k + i, vals[i])
    {
      BoundToExact(before, list, k + i, vals[i]);
    }
  }

  /** The builders' binding loop resolves every slice of the list and leaves the caller's placeholders alone. */
  lemma BoundResolves(before: Bindings, list: seq<Variant>, k: nat, n: nat)
    requires k + n <= |list| && Now !in list[k..k + n]
    ensures Resolves(list[k..k + n], k, Bound(before, list))
    ensures SameForUser(Bound(before, list), before)
  {
    var vals := list[k..k + n];
    forall i | 0 <= i < |vals|
      ensures BoundTo(Bound(before, list), k + i, vals[i])
    {
      assert vals[i] == list[k + i];
      BoundUpToGets(before, list, |list|, k + i);
    }
    forall p | UserPlaceholder(p)
      ensures Lookup(Bound(before, list), p) == Lookup(before, p)
    {
      forall i | 0 <= i < |list|
        ensures Placeholder(i) != p
      {
        PlaceholderShape(i);
      }
      BoundUpToKeeps(before, list, |list|, p);
    }
  }
}
