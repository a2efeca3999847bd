/** Prepared queries with the same text on the same connection: copies of a cached query share one set of bindings. */
module SharedQueries {
  import opened Conditions
  import opened Printing
  import opened Semantics

  /** The connection and the text a query was prepared for. */
  type Key = (string, string)

  /** The bindings and the key of every prepared query, which one is cached for a key, and which one a builder holds
      (a copy of). */
  datatype Pool = Pool(
    bound: seq<Bindings>, keys: seq<Key>, cache: map<Key, nat>, enabled: bool, held: map<nat, nat>)

  /** A builder that prepares and binds its list, or a change of the cache. */
  datatype Event =
    | Prepare(builder: nat, key: Key, list: seq<Variant>)
    | Clear
    | SetEnabled(flag: bool)

  ghost predicate Valid(s: Pool) {
    && |s.keys| == |s.bound|
    && (forall key <- s.cache :: s.cache[key] < |s.bound| && s.keys[s.cache[key]] == key)
    && (forall b <- s.held :: s.held[b] < |s.bound|)
  }

  predicate Hit(s: Pool, key: Key) {
    s.enabled && key in s.cache
  }

  function Step(s: Pool, e: Event): (next: Pool)
    requires Valid(s)
    ensures Valid(next) && |next.bound| >= |s.bound|
  {
    match e
    case Clear => s.(cache := map[])
    case SetEnabled(flag) => s.(cache := map[], enabled := flag)
    case Prepare(b, key, list) =>
      if Hit(s, key) then
        var id := s.cache[key];
        s.(bound := s.bound[id := Bound(s.bound[id], list)], held := s.held[b := id])
      else
        var id := |s.bound|;
        s.(bound := s.bound + [Bound(map[], list)], keys := s.keys + [key],
           cache := if s.enabled then s.cache[key := id] else s.cache, held := s.held[b := id])
  }

  function Run(s: Pool, es: seq<Event>): (end: Pool)
    requires Valid(s)
    ensures Valid(end) && |end.bound| >= |s.bound|
    decreases |es|
  {
    if es == [] then s else Run(Step(s, es[0]), es[1..])
  }

  /** The event binds its list to the query `id`. */
  predicate Rebinds(s: Pool, e: Event, id: nat) {
    e.Prepare? && Hit(s, e.key) && s.cache[e.key] == id
  }

  /** Only a builder with the same text on the same connection does that, and only while the query is cached. */
  lemma RebindsSameText(s: Pool, e: Event, id: nat)
    requires Valid(s) && id < |s.bound| && Rebinds(s, e, id)
    ensures e.key == s.keys[id]
  {
  }

  predicate Covers(list: seq<Variant>, k: nat) {
    k < |list| && list[k] != Now
  }

  lemma {:induction false} BoundUpToAt(before: Bindings, list: seq<Variant>, n: nat, k: nat)
    requires n <= |list|
    ensures k < n && list[k] != Now ==> Lookup(BoundUpTo(before, list, n), Placeholder(k)) == DriverForm(list[k])
    ensures !(k < n && list[k] != Now) ==> Lookup(BoundUpTo(before, list, n), Placeholder(k)) == Lookup(before, Placeholder(k))
  {
    if n > 0 {
      BoundUpToAt(before, list, n - 1, k);
      if Placeholder(k) == Placeholder(n - 1) {
        PlaceholderInjective(k, n - 1);
      }
    }
  }

  /** What the placeholder of index `k` of query `id` is bound to after a run that starts with `v`. */
  function ValueAfter(s: Pool, es: seq<Event>, id: nat, k: nat, v: Variant): Variant
    requires Valid(s)
    decreases |es|
  {
    if es == [] then v
    else
      ValueAfter(Step(s, es[0]), es[1..], id, k,
                 if Rebinds(s, es[0], id) && Covers(es[0].list, k) then DriverForm(es[0].list[k]) else v)
  }

  lemma StepBinds(s: Pool, e: Event, id: nat, k: nat)
    requires Valid(s) && id < |s.bound|
    ensures Lookup(Step(s, e).bound[id], Placeholder(k))
      == if Rebinds(s, e, id) && Covers(e.list, k) then DriverForm(e.list[k]) else Lookup(s.bound[id], Placeholder(k))
  {
    if Rebinds(s, e, id) {
      BoundUpToAt(s.bound[id], e.list, |e.list|, k);
    }
  }

  lemma {:induction false} RunBinds(s: Pool, es: seq<Event>, id: nat, k: nat)
    requires Valid(s) && id < |s.bound|
    ensures Lookup(Run(s, es).bound[id], Placeholder(k))
      == ValueAfter(s, es, id, k, Lookup(s.bound[id], Placeholder(k)))
    decreases |es|
  {
    hide Step, Rebinds, Covers, Valid, Lookup;
    if es != [] {
      StepBinds(s, es[0], id, k);
      RunBinds(Step(s, es[0]), es[1..], id, k);
    }
  }

  /** The placeholders from `k` on give the driver these values; an unbound one is NULL. */
  ghost predicate Gives(b: Bindings, k: nat, vals: seq<Variant>) {
    forall i :: 0 <= i < |vals| ==> Lookup(b, Placeholder(k + i)) == DriverForm(vals[i])
  }

  /** Some event binds a list over an index of the query. */
  predicate Overwrites(s: Pool, es: seq<Event>, id: nat, k: nat)
    requires Valid(s)
    decreases |es|
  {
    es != [] && ((Rebinds(s, es[0], id) && Covers(es[0].list, k)) || Overwrites(Step(s, es[0]), es[1..], id, k))
  }

  /** The same events with other values in their lists. */
  predicate SameButValues(es: seq<Event>, es': seq<Event>) {
    && |es| == |es'|
    && forall j :: 0 <= j < |es| && j < |es'| ==>
      if es[j].Prepare?
      then && es'[j].Prepare? && es'[j].builder == es[j].builder && es'[j].key == es[j].key
           && |es'[j].list| == |es[j].list|
           && forall k :: 0 <= k < |es[j].list| && k < |es'[j].list| ==> (es'[j].list[k] == Now <==> es[j].list[k] == Now)
      else es'[j] == es[j]
  }

  /** The cache does not look at values. */
  ghost predicate SameCache(s: Pool, s': Pool) {
    |s.bound| == |s'.bound| && s.cache == s'.cache && s.enabled == s'.enabled
  }

  lemma {:induction false} OverwritesAlike(s: Pool, es: seq<Event>, s': Pool, es': seq<Event>, id: nat, k: nat)
    requires Valid(s) && Valid(s') && SameCache(s, s') && SameButValues(es, es')
    ensures Overwrites(s, es, id, k) <==> Overwrites(s', es', id, k)
    decreases |es|
  {
    hide Bound, Valid;
    if es != [] {
      assert SameButValues(es[1..], es'[1..]) by { RestSame(es, es'); }
      StepAlike(s, es[0], s', es'[0]);
      assert SameButValues([es[0]], [es'[0]]);
      assert Rebinds(s, es[0], id) && Covers(es[0].list, k) <==> Rebinds(s', es'[0], id) && Covers(es'[0].list, k);
      OverwritesAlike(Step(s, es[0]), es[1..], Step(s', es'[0]), es'[1..], id, k);
    }
  }

  lemma RestSame(es: seq<Event>, es': seq<Event>)
    requires SameButValues(es, es') && es != []
    ensures SameButValues(es[1..], es'[1..])
  {
    assert forall j :: 0 <= j < |es| - 1 ==> es[1..][j] == es[j + 1] && es'[1..][j] == es'[j + 1];
  }

  lemma StepAlike(s: Pool, e: Event, s': Pool, e': Event)
    requires Valid(s) && Valid(s') && SameCache(s, s') && SameButValues([e], [e'])
    ensures SameCache(Step(s, e), Step(s', e'))
  {
    hide Bound;
    assert [e][0] == e && [e'][0] == e';
  }

  lemma {:induction false} NotOverwritten(s: Pool, es: seq<Event>, id: nat, k: nat, v: Variant)
    requires Valid(s) && !Overwrites(s, es, id, k)
    ensures ValueAfter(s, es, id, k, v) == v
    decreases |es|
  {
    hide Step, Valid;
    if es != [] {
      NotOverwritten(Step(s, es[0]), es[1..], id, k, v);
    }
  }

  /** The events with one value everywhere. */
  function Flood(es: seq<Event>, v: Variant): (r: seq<Event>)
    ensures |r| == |es|
  {
    seq(|es|, j requires 0 <= j < |es| =>
      if es[j].Prepare?
      then es[j].(list := seq(|es[j].list|, k requires 0 <= k < |es[j].list| => if es[j].list[k] == Now then Now else v))
      else es[j])
  }

  lemma {:induction false} Flooded(s: Pool, es: seq<Event>, id: nat, k: nat, v: Variant, a: int)
    requires Valid(s) && (Overwrites(s, Flood(es, Other(a)), id, k) || v == Other(a))
    ensures ValueAfter(s, Flood(es, Other(a)), id, k, v) == Other(a)
    decreases |es|
  {
    hide Step, Valid;
    if es != [] {
      var es' := Flood(es, Other(a));
      assert es'[1..] == Flood(es[1..], Other(a));
      var over := Rebinds(s, es'[0], id) && Covers(es'[0].list, k);
      Flooded(Step(s, es'[0]), es[1..], id, k, if over then Other(a) else v, a);
    }
  }

  /** A builder `b` has prepared and bound: the query it holds gives the driver its values. */
  lemma PreparedGives(s: Pool, b: nat, key: Key, list: seq<Variant>, k: nat, vals: seq<Variant>)
    requires Valid(s) && k + |vals| <= |list| && list[k..k + |vals|] == vals && Now !in vals
    ensures var s1 := Step(s, Prepare(b, key, list));
      b in s1.held && s1.keys[s1.held[b]] == key && Gives(s1.bound[s1.held[b]], k, vals)
  {
    var s1 := Step(s, Prepare(b, key, list));
    var before := if Hit(s, key) then s.bound[s.cache[key]] else map[];
    forall i | 0 <= i < |vals|
      ensures Lookup(s1.bound[s1.held[b]], Placeholder(k + i)) == DriverForm(vals[i])
    {
      assert vals[i] == list[k + i] && vals[i] in vals;
      BoundUpToAt(before, list, |list|, k + i);
    }
  }

  lemma {:induction false} StillHeld(s: Pool, es: seq<Event>, b: nat)
    requires Valid(s) && b in s.held && forall e <- es :: e.Prepare? ==> e.builder != b
    ensures b in Run(s, es).held && Run(s, es).held[b] == s.held[b]
    decreases |es|
  {
    hide Bound, Valid;
    if es != [] {
      assert es[0] in es && forall e <- es[1..] :: e in es;
      StillHeld(Step(s, es[0]), es[1..], b);
    }
  }

  /** A prepared query, until its builder prepares again: whatever values the builders in between carry, it still gives
      the driver its own ones exactly if none of them binds over them. By `RebindsSameText` only a builder with the
      same text on the same connection can, and only while the query is cached. */
  lemma SharedExact(s: Pool, es: seq<Event>, b: nat, k: nat, vals: seq<Variant>)
    requires Valid(s) && b in s.held && Gives(s.bound[s.held[b]], k, vals)
    requires forall e <- es :: e.Prepare? ==> e.builder != b
    ensures b in Run(s, es).held && Run(s, es).held[b] == s.held[b]
    ensures (forall es' :: SameButValues(es, es') ==> Gives(Run(s, es').bound[s.held[b]], k, vals))
      <==> forall j :: k <= j < k + |vals| ==> !Overwrites(s, es, s.held[b], j)
  {
    hide Step, Run, Overwrites, SameButValues, Lookup;
    var id := s.held[b];
    StillHeld(s, es, b);
    if j :| k <= j < k + |vals| && Overwrites(s, es, id, j) {
      var i := j - k;
      var a := if DriverForm(vals[i]) == Other(0) then 1 else 0;
      var es' := Flood(es, Other(a));
      FloodSame(es, a);
      OverwritesAlike(s, es, s, es', id, k + i);
      RunBinds(s, es', id, k + i);
      Flooded(s, es, id, k + i, Lookup(s.bound[id], Placeholder(k + i)), a);
      assert !Gives(Run(s, es').bound[id], k, vals);
    } else {
      forall es' | SameButValues(es, es')
        ensures Gives(Run(s, es').bound[id], k, vals)
      {
        forall i | 0 <= i < |vals|
          ensures Lookup(Run(s, es').bound[id], Placeholder(k + i)) == DriverForm(vals[i])
        {
          assert !Overwrites(s, es, id, k + i);
          OverwritesAlike(s, es, s, es', id, k + i);
          RunBinds(s, es', id, k + i);
          NotOverwritten(s, es', id, k + i, Lookup(s.bound[id], Placeholder(k + i)));
        }
      }
    }
  }

  lemma FloodSame(es: seq<Event>, a: int)
    ensures SameButValues(es, Flood(es, Other(a)))
  {
  }

  /** Two builders with one text on one connection: the second one's value is in the first one's query. */
  lemma SecondOverwrites(key: Key, v: Variant, w: Variant)
    requires v != Now && w != Now
    ensures
      var s := Run(Pool([], [], map[], true, map[]), [Prepare(0, key, [v]), Prepare(1, key, [w])]);
      0 in s.held && Lookup(s.bound[s.held[0]], Placeholder(0)) == DriverForm(w)
  {
    var empty := Pool([], [], map[], true, map[]);
    var es := [Prepare(0, key, [v]), Prepare(1, key, [w])];
    assert es[1..] == [es[1]] && es[1..][1..] == [];
    var s1 := Step(empty, es[0]);
    assert s1.held[0] == 0 && s1.cache[key] == 0;
    BoundUpToAt(s1.bound[0], [w], 1, 0);
    assert Run(s1, [es[1]]) == Step(s1, es[1]) by { assert Run(Step(s1, es[1]), []) == Step(s1, es[1]); }
  }
}
