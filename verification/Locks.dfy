/** The two mutexes of the query manager and the query cache under any number of threads. */
module Locks {

  datatype Lock = QueryMutex | MonitorMutex

  /** `CacheOne` puts a registered copy of a query into the cache. `DropCache` empties the cache, after which every
      query it held is destroyed and unregisters itself; `checking` tells the one inside a connection check. */
  datatype Action =
    | Acquire(lock: Lock) | Release(lock: Lock) | Work
    | CacheOne | DropCache(checking: bool)

  // ----- what each operation does -----

  /** Registering, unregistering and counting take one mutex. Caching a query registers the copy. Switching the cache
      empties it without any mutex. A connection check takes both mutexes, and empties the cache whenever the driver
      grants one of its attempts to open. */
  datatype Operation =
    | OnQueries
    | OnMonitors
    | CacheQuery
    | SwitchCache
    | CheckDbIsAlive(opens: seq<bool>)

  function Locked(lock: Lock): seq<Action> {
    [Acquire(lock), Work, Release(lock)]
  }

  function DestroyQueries(n: nat): seq<Action> {
    if n == 0 then [] else Locked(QueryMutex) + DestroyQueries(n - 1)
  }

  function Attempts(opens: seq<bool>): seq<Action> {
    if opens == [] then []
    else [Work] + (if opens[0] then [DropCache(true)] else []) + Attempts(opens[1..])
  }

  const UNLOCK := [Release(MonitorMutex), Release(QueryMutex)]

  function Program(op: Operation): seq<Action> {
    match op
    case OnQueries => Locked(QueryMutex)
    case OnMonitors => Locked(MonitorMutex)
    case CacheQuery => Locked(QueryMutex) + [CacheOne]
    case SwitchCache => [DropCache(false)]
    case CheckDbIsAlive(opens) => [Acquire(QueryMutex), Acquire(MonitorMutex)] + (Attempts(opens) + UNLOCK)
  }

  function Programs(ops: seq<Operation>): seq<Action> {
    if ops == [] then [] else Program(ops[0]) + Programs(ops[1..])
  }

  predicate Reopens(op: Operation) {
    op.CheckDbIsAlive? && true in op.opens
  }

  function CachedAfter(op: Operation, cached: nat): nat {
    if op == CacheQuery then cached + 1 else if op == SwitchCache || Reopens(op) then 0 else cached
  }

  /** A thread running alone comes to a check that reopens the connection while queries are cached. */
  predicate ReopensOverCache(ops: seq<Operation>, cached: nat) {
    ops != [] && ((Reopens(ops[0]) && cached > 0) || ReopensOverCache(ops[1..], CachedAfter(ops[0], cached)))
  }

  /** No thread that reopens a connection finds queries in the cache: neither cached by itself or before it started,
      nor by any other thread. */
  predicate Safe(work: seq<seq<Operation>>, cached: nat) {
    forall t :: 0 <= t < |work| && (exists op <- work[t] :: Reopens(op)) ==>
      && !ReopensOverCache(work[t], cached)
      && forall u :: 0 <= u < |work| && u != t ==> CacheQuery !in work[u]
  }

  // ----- threads -----

  /** What each thread still has to do, which thread owns a mutex, and how many queries are cached. The mutexes are
      not recursive. */
  datatype State = State(threads: seq<seq<Action>>, owner: map<Lock, nat>, cached: nat)

  predicate Unfinished(s: State, t: nat) {
    t < |s.threads| && s.threads[t] != []
  }

  predicate Enabled(s: State, t: nat) {
    Unfinished(s, t) && (s.threads[t][0].Acquire? ==> s.threads[t][0].lock !in s.owner)
  }

  function Step(s: State, t: nat): State
    requires Enabled(s, t)
  {
    var rest := s.threads[t][1..];
    var threads := s.threads[t := rest];
    match s.threads[t][0]
    case Acquire(l) => State(threads, s.owner[l := t], s.cached)
    case Release(l) => State(threads, s.owner - {l}, s.cached)
    case Work => State(threads, s.owner, s.cached)
    case CacheOne => State(threads, s.owner, s.cached + 1)
    case DropCache(_) => State(s.threads[t := DestroyQueries(s.cached) + rest], s.owner, 0)
  }

  function Start(work: seq<seq<Operation>>, cached: nat): State {
    State(seq(|work|, t requires 0 <= t < |work| => Programs(work[t])), map[], cached)
  }

  predicate Schedule(s: State, turns: seq<nat>)
    decreases |turns|
  {
    turns != [] ==> Enabled(s, turns[0]) && Schedule(Step(s, turns[0]), turns[1..])
  }

  function After(s: State, turns: seq<nat>): State
    requires Schedule(s, turns)
    decreases |turns|
  {
    if turns == [] then s else After(Step(s, turns[0]), turns[1..])
  }

  predicate Stuck(s: State) {
    (exists t :: 0 <= t < |s.threads| && Unfinished(s, t)) && forall t :: 0 <= t < |s.threads| ==> !Enabled(s, t)
  }

  // ----- the lock order -----

  /** A thread that holds `held` takes a mutex only if it does not hold it, and the query mutex only before the
      monitor mutex; it ends with none. It empties the cache only while it holds none, or there is nothing in it. */
  predicate Ordered(program: seq<Action>, held: set<Lock>, cached: nat) {
    if program == [] then held == {}
    else
      match program[0]
      case Acquire(l) =>
        l !in held && (l == QueryMutex ==> MonitorMutex !in held) && Ordered(program[1..], held + {l}, cached)
      case Release(l) => l in held && Ordered(program[1..], held - {l}, cached)
      case Work => Ordered(program[1..], held, cached)
      case CacheOne => Ordered(program[1..], held, cached + 1)
      case DropCache(checking) => (if checking then cached == 0 else held == {}) && Ordered(program[1..], held, 0)
  }

  /** With fewer queries cached, or none dropped in a check, the order is kept too. */
  lemma {:induction false} OrderedWith(program: seq<Action>, held: set<Lock>, m: nat, n: nat)
    requires Ordered(program, held, n) && (m <= n || DropCache(true) !in program)
    ensures Ordered(program, held, m)
  {
    if program != [] {
      match program[0]
      case Acquire(l) => OrderedWith(program[1..], held + {l}, m, n);
      case Release(l) => OrderedWith(program[1..], held - {l}, m, n);
      case Work => OrderedWith(program[1..], held, m, n);
      case CacheOne => OrderedWith(program[1..], held, m + 1, n + 1);
      case DropCache(_) =>
    }
  }

  lemma {:induction false} DestroyOrdered(n: nat, rest: seq<Action>)
    requires Ordered(rest, {}, 0)
    ensures Ordered(DestroyQueries(n) + rest, {}, 0)
  {
    if n == 0 {
      assert DestroyQueries(n) + rest == rest;
    } else {
      DestroyOrdered(n - 1, rest);
      assert DestroyQueries(n) + rest == Locked(QueryMutex) + (DestroyQueries(n - 1) + rest);
      LockedOrdered(QueryMutex, DestroyQueries(n - 1) + rest, 0);
    }
  }

  lemma LockedOrdered(l: Lock, rest: seq<Action>, cached: nat)
    requires Ordered(rest, {}, cached)
    ensures Ordered(Locked(l) + rest, {}, cached)
  {
    var p := Locked(l) + rest;
    assert p[1..] == [Work, Release(l)] + rest && p[1..][1..] == [Release(l)] + rest && p[1..][1..][1..] == rest;
    assert {} + {l} == {l} && {l} - {l} == {};
    assert Ordered(p[1..][1..], {l}, cached);
  }

  function Held(s: State, t: nat): set<Lock> {
    set l | l in s.owner && s.owner[l] == t
  }

  /** Every thread keeps the order, and beside a thread that still may reopen a connection no other caches a query. */
  ghost predicate Disciplined(s: State) {
    && (forall l <- s.owner :: s.owner[l] < |s.threads|)
    && (forall t :: 0 <= t < |s.threads| ==> Ordered(s.threads[t], Held(s, t), s.cached))
    && (forall t, u :: 0 <= t < |s.threads| && 0 <= u < |s.threads| && t != u ==>
          DropCache(true) !in s.threads[t] || CacheOne !in s.threads[u])
  }

  lemma {:induction false} DestroyActions(n: nat)
    ensures DropCache(true) !in DestroyQueries(n) && CacheOne !in DestroyQueries(n)
  {
    if n > 0 {
      DestroyActions(n - 1);
    }
  }

  lemma StepOrdered(s: State, t: nat)
    requires Disciplined(s) && Enabled(s, t)
    ensures Ordered(Step(s, t).threads[t], Held(Step(s, t), t), Step(s, t).cached)
  {
    var next, rest := Step(s, t), s.threads[t][1..];
    assert Ordered(s.threads[t], Held(s, t), s.cached);
    match s.threads[t][0]
    case Acquire(l) => assert Held(next, t) == Held(s, t) + {l};
    case Release(l) => assert Held(next, t) == Held(s, t) - {l};
    case Work => assert Held(next, t) == Held(s, t);
    case CacheOne => assert Held(next, t) == Held(s, t);
    case DropCache(checking) =>
      assert Held(next, t) == Held(s, t);
      if checking {
        assert DestroyQueries(0) + rest == rest;
      } else {
        DestroyOrdered(s.cached, rest);
      }
  }

  lemma StepDisciplined(s: State, t: nat)
    requires Disciplined(s) && Enabled(s, t)
    ensures Disciplined(Step(s, t))
  {
    hide Ordered;
    var next, a := Step(s, t), s.threads[t][0];
    StepOrdered(s, t);
    DestroyActions(s.cached);
    assert a in s.threads[t];
    assert forall b :: b == DropCache(true) || b == CacheOne ==> (b in next.threads[t] ==> b in s.threads[t]);
    forall u | 0 <= u < |next.threads| && u != t
      ensures Ordered(next.threads[u], Held(next, u), next.cached)
    {
      assert Ordered(s.threads[u], Held(s, u), s.cached);
      assert Held(next, u) == Held(s, u) by { OthersHold(s, t, u); }
      OrderedWith(s.threads[u], Held(s, u), next.cached, s.cached);
    }
  }

  lemma OthersHold(s: State, t: nat, u: nat)
    requires Disciplined(s) && Enabled(s, t) && u != t
    ensures Held(Step(s, t), u) == Held(s, u)
  {
    assert Ordered(s.threads[t], Held(s, t), s.cached);
  }

  /** Disciplined threads are never stuck: whoever owns the monitor mutex can go on, else whoever owns the query
      mutex, else anybody. */
  lemma DisciplinedNotStuck(s: State)
    requires Disciplined(s)
    ensures !Stuck(s)
  {
    if MonitorMutex in s.owner {
      var t := s.owner[MonitorMutex];
      assert MonitorMutex in Held(s, t);
      assert Ordered(s.threads[t], Held(s, t), s.cached);
      assert Enabled(s, t);
    } else if QueryMutex in s.owner {
      var t := s.owner[QueryMutex];
      assert QueryMutex in Held(s, t);
      assert Ordered(s.threads[t], Held(s, t), s.cached);
      assert Enabled(s, t);
    } else if t :| 0 <= t < |s.threads| && Unfinished(s, t) {
      assert Enabled(s, t);
    }
  }

  lemma {:induction false} RunDisciplined(s: State, turns: seq<nat>)
    requires Disciplined(s) && Schedule(s, turns)
    ensures Disciplined(After(s, turns))
    decreases |turns|
  {
    if turns != [] {
      StepDisciplined(s, turns[0]);
      RunDisciplined(Step(s, turns[0]), turns[1..]);
    }
  }

  // ----- safe programs keep the order -----

  lemma {:induction false} AttemptsOrdered(opens: seq<bool>, cached: nat, rest: seq<Action>)
    requires true in opens ==> cached == 0
    requires Ordered(rest, {QueryMutex, MonitorMutex}, cached)
    ensures Ordered(Attempts(opens) + rest, {QueryMutex, MonitorMutex}, cached)
  {
    hide Ordered;
    if opens == [] {
      assert Attempts(opens) + rest == rest;
    } else {
      var more := Attempts(opens[1..]) + rest;
      AttemptsOrdered(opens[1..], cached, rest);
      assert Attempts(opens) + rest == [Work] + ((if opens[0] then [DropCache(true)] else []) + more);
      WorkOrdered(opens[0], more, cached);
    }
  }

  lemma WorkOrdered(dropping: bool, more: seq<Action>, cached: nat)
    requires Ordered(more, {QueryMutex, MonitorMutex}, cached) && (dropping ==> cached == 0)
    ensures Ordered([Work] + ((if dropping then [DropCache(true)] else []) + more), {QueryMutex, MonitorMutex}, cached)
  {
    var rest := (if dropping then [DropCache(true)] else []) + more;
    assert ([Work] + rest)[1..] == rest;
    if dropping {
      assert rest[1..] == more;
    } else {
      assert rest == more;
    }
  }

  lemma UnlockOrdered(rest: seq<Action>, cached: nat)
    requires Ordered(rest, {}, cached)
    ensures Ordered(UNLOCK + rest, {QueryMutex, MonitorMutex}, cached)
  {
    var both, p := {QueryMutex, MonitorMutex}, UNLOCK + rest;
    assert p[1..] == [Release(QueryMutex)] + rest && p[1..][1..] == rest;
    assert both - {MonitorMutex} == {QueryMutex} && {QueryMutex} - {QueryMutex} == {};
    assert Ordered(p[1..], {QueryMutex}, cached);
  }

  lemma CheckOrdered(opens: seq<bool>, cached: nat, rest: seq<Action>)
    requires (true in opens ==> cached == 0) && Ordered(rest, {}, cached)
    ensures Ordered(Program(CheckDbIsAlive(opens)) + rest, {}, cached)
  {
    hide Attempts, Ordered;
    UnlockOrdered(rest, cached);
    AttemptsOrdered(opens, cached, UNLOCK + rest);
    var body := Attempts(opens) + (UNLOCK + rest);
    LocksOrdered(body, cached);
    assert Program(CheckDbIsAlive(opens)) + rest == [Acquire(QueryMutex), Acquire(MonitorMutex)] + body;
  }

  lemma LocksOrdered(body: seq<Action>, cached: nat)
    requires Ordered(body, {QueryMutex, MonitorMutex}, cached)
    ensures Ordered([Acquire(QueryMutex), Acquire(MonitorMutex)] + body, {}, cached)
  {
    var p := [Acquire(QueryMutex), Acquire(MonitorMutex)] + body;
    assert p[1..] == [Acquire(MonitorMutex)] + body && p[1..][1..] == body;
    assert {} + {QueryMutex} == {QueryMutex} && {QueryMutex} + {MonitorMutex} == {QueryMutex, MonitorMutex};
    assert Ordered(p[1..], {QueryMutex}, cached);
  }

  lemma OperationOrdered(op: Operation, cached: nat, rest: seq<Action>)
    requires (Reopens(op) ==> cached == 0) && Ordered(rest, {}, CachedAfter(op, cached))
    ensures Ordered(Program(op) + rest, {}, cached)
  {
    match op
    case OnQueries => LockedOrdered(QueryMutex, rest, cached);
    case OnMonitors => LockedOrdered(MonitorMutex, rest, cached);
    case CacheQuery =>
      var more := [CacheOne] + rest;
      assert more[1..] == rest;
      LockedOrdered(QueryMutex, more, cached);
      assert Program(op) + rest == Locked(QueryMutex) + more;
    case SwitchCache => assert ([DropCache(false)] + rest)[1..] == rest;
    case CheckDbIsAlive(opens) => CheckOrdered(opens, cached, rest);
  }

  lemma {:induction false} ProgramsOrdered(ops: seq<Operation>, cached: nat)
    requires !ReopensOverCache(ops, cached)
    ensures Ordered(Programs(ops), {}, cached)
  {
    hide Program, CachedAfter;
    if ops != [] {
      ProgramsOrdered(ops[1..], CachedAfter(ops[0], cached));
      OperationOrdered(ops[0], cached, Programs(ops[1..]));
    }
  }

  lemma {:induction false} NoReopening(ops: seq<Operation>, cached: nat)
    requires forall op <- ops :: !Reopens(op)
    ensures !ReopensOverCache(ops, cached)
  {
    if ops != [] {
      NoReopening(ops[1..], CachedAfter(ops[0], cached));
    }
  }

  lemma {:induction false} AttemptsActions(opens: seq<bool>)
    ensures DropCache(true) in Attempts(opens) ==> true in opens
    ensures CacheOne !in Attempts(opens)
  {
    if opens != [] {
      AttemptsActions(opens[1..]);
    }
  }

  lemma OperationActions(op: Operation)
    ensures DropCache(true) in Program(op) ==> Reopens(op)
    ensures CacheOne in Program(op) ==> op == CacheQuery
  {
    if op.CheckDbIsAlive? {
      AttemptsActions(op.opens);
    }
  }

  lemma {:induction false} ProgramsActions(ops: seq<Operation>)
    ensures DropCache(true) in Programs(ops) ==> exists op <- ops :: Reopens(op)
    ensures CacheOne in Programs(ops) ==> CacheQuery in ops
  {
    hide Program, Reopens;
    if ops != [] {
      ProgramsActions(ops[1..]);
      OperationActions(ops[0]);
      assert forall op <- ops[1..] :: op in ops;
      assert ops[0] in ops;
    }
  }

  /** Safe work never gets stuck, in no schedule of any number of threads. */
  lemma NeverStuck(work: seq<seq<Operation>>, cached: nat, turns: seq<nat>)
    requires Safe(work, cached) && Schedule(Start(work, cached), turns)
    ensures !Stuck(After(Start(work, cached), turns))
  {
    hide Programs, Ordered, ReopensOverCache;
    var s := Start(work, cached);
    forall t | 0 <= t < |work|
      ensures Ordered(s.threads[t], Held(s, t), cached)
    {
      if forall op <- work[t] :: !Reopens(op) {
        NoReopening(work[t], cached);
      }
      ProgramsOrdered(work[t], cached);
      assert Held(s, t) == {};
    }
    forall t, u | 0 <= t < |work| && 0 <= u < |work| && t != u
      ensures DropCache(true) !in s.threads[t] || CacheOne !in s.threads[u]
    {
      ProgramsActions(work[t]);
      ProgramsActions(work[u]);
    }
    RunDisciplined(s, turns);
    DisciplinedNotStuck(After(s, turns));
  }

  // ----- unsafe work gets stuck -----

  lemma {:induction false} ScheduleAppend(s: State, a: seq<nat>, b: seq<nat>)
    requires Schedule(s, a) && Schedule(After(s, a), b)
    ensures Schedule(s, a + b) && After(s, a + b) == After(After(s, a), b)
    decreases |a|
  {
    hide Step, Enabled;
    if a == [] {
      assert a + b == b;
    } else {
      assert (a + b)[0] == a[0] && (a + b)[1..] == a[1..] + b;
      ScheduleAppend(Step(s, a[0]), a[1..], b);
    }
  }

  lemma OneTurn(s: State, t: nat)
    requires Enabled(s, t)
    ensures Schedule(s, [t]) && After(s, [t]) == Step(s, t)
  {
    assert [t][1..] == [];
    assert Schedule(Step(s, t), []);
  }

  function AfterActions(p: seq<Action>, n: nat): nat {
    if p == [] then n
    else if p[0].CacheOne? then AfterActions(p[1..], n + 1)
    else if p[0].DropCache? then AfterActions(p[1..], 0)
    else AfterActions(p[1..], n)
  }

  /** A thread alone with its mutexes gets through actions that keep the order. */
  lemma {:induction false} ActionsRun(s: State, t: nat, a: seq<Action>, rest: seq<Action>) returns (turns: seq<nat>)
    requires t < |s.threads| && s.threads[t] == a + rest && forall l <- s.owner :: s.owner[l] == t
    requires Ordered(a, Held(s, t), s.cached) && DropCache(false) !in a
    ensures Schedule(s, turns)
    ensures After(s, turns) == State(s.threads[t := rest], map[], AfterActions(a, s.cached))
    decreases |a|
  {
    if a == [] {
      turns := [];
      assert a + rest == rest && s.threads[t := rest] == s.threads;
      assert s.owner == map[] by {
        assert forall l <- s.owner :: l in Held(s, t);
      }
    } else {
      assert (a + rest)[0] == a[0] && (a + rest)[1..] == a[1..] + rest;
      assert forall b <- a[1..] :: b in a;
      assert a[0] in a;
      assert Enabled(s, t) by {
        assert a[0].Acquire? ==> a[0].lock !in Held(s, t);
      }
      var next := Step(s, t);
      AloneStep(s, t, a, rest);
      var more := ActionsRun(next, t, a[1..], rest);
      turns := [t] + more;
      OneTurn(s, t);
      ScheduleAppend(s, [t], more);
      assert next.threads[t := rest] == s.threads[t := rest];
    }
  }

  lemma AloneStep(s: State, t: nat, a: seq<Action>, rest: seq<Action>)
    requires Enabled(s, t) && forall l <- s.owner :: s.owner[l] == t
    requires a != [] && s.threads[t] == a + rest && (a + rest)[1..] == a[1..] + rest && a[0] != DropCache(false)
    requires Ordered(a, Held(s, t), s.cached)
    ensures var next := Step(s, t);
      && next.threads == s.threads[t := a[1..] + rest] && (forall l <- next.owner :: next.owner[l] == t)
      && Ordered(a[1..], Held(next, t), next.cached)
      && AfterActions(a[1..], next.cached) == AfterActions(a, s.cached)
  {
    var next := Step(s, t);
    match a[0]
    case Acquire(l) => assert Held(next, t) == Held(s, t) + {l};
    case Release(l) => assert Held(next, t) == Held(s, t) - {l};
    case Work => assert Held(next, t) == Held(s, t);
    case CacheOne => assert Held(next, t) == Held(s, t);
    case DropCache(_) =>
      assert Held(next, t) == Held(s, t);
      assert DestroyQueries(0) + (a[1..] + rest) == a[1..] + rest;
  }

  lemma {:induction false} AttemptsKeep(opens: seq<bool>, n: nat)
    requires true in opens ==> n == 0
    ensures AfterActions(Attempts(opens) + UNLOCK, n) == n
  {
    var all := Attempts(opens) + UNLOCK;
    if opens == [] {
      assert all == UNLOCK && UNLOCK[1..] == [Release(QueryMutex)] && UNLOCK[1..][1..] == [];
      assert AfterActions([Release(QueryMutex)], n) == n;
    } else {
      var more := Attempts(opens[1..]) + UNLOCK;
      AttemptsKeep(opens[1..], n);
      if opens[0] {
        assert all[1..] == [DropCache(true)] + more && all[1..][1..] == more;
      } else {
        assert all[1..] == more;
      }
    }
  }

  lemma ProgramKeeps(op: Operation, n: nat)
    requires (Reopens(op) ==> n == 0) && op != SwitchCache
    ensures AfterActions(Program(op), n) == CachedAfter(op, n)
  {
    match op
    case OnQueries => LockedKeeps(QueryMutex, [], n);
    case OnMonitors => LockedKeeps(MonitorMutex, [], n);
    case CacheQuery =>
      LockedKeeps(QueryMutex, [CacheOne], n);
      assert [CacheOne][1..] == [];
    case CheckDbIsAlive(opens) =>
      var p := Program(op);
      assert p[1..][1..] == Attempts(opens) + UNLOCK;
      AttemptsKeep(opens, n);
  }

  lemma LockedKeeps(l: Lock, rest: seq<Action>, n: nat)
    ensures AfterActions(Locked(l) + rest, n) == AfterActions(rest, n)
    ensures Locked(l) + [] == Locked(l)
  {
    var p := Locked(l) + rest;
    assert p[1..] == [Work, Release(l)] + rest && p[1..][1..] == [Release(l)] + rest && p[1..][1..][1..] == rest;
    assert AfterActions(p[1..][1..], n) == AfterActions(rest, n);
  }

  lemma {:induction false} DestroyKeeps(n: nat)
    ensures AfterActions(DestroyQueries(n), 0) == 0 && DropCache(false) !in DestroyQueries(n)
  {
    if n > 0 {
      DestroyKeeps(n - 1);
      LockedKeeps(QueryMutex, DestroyQueries(n - 1), 0);
    }
  }

  lemma {:induction false} NoSwitch(opens: seq<bool>)
    ensures DropCache(false) !in Attempts(opens)
  {
    if opens != [] {
      NoSwitch(opens[1..]);
    }
  }

  /** A thread gets through one operation while no mutex is owned, unless it reopens over a filled cache. */
  lemma OperationRuns(s: State, t: nat, op: Operation, rest: seq<Action>) returns (turns: seq<nat>)
    requires t < |s.threads| && s.threads[t] == Program(op) + rest && s.owner == map[]
    requires Reopens(op) ==> s.cached == 0
    ensures Schedule(s, turns)
    ensures After(s, turns) == State(s.threads[t := rest], map[], CachedAfter(op, s.cached))
  {
    hide Schedule, After, Ordered, AfterActions;
    assert Held(s, t) == {};
    if op == SwitchCache {
      var n := s.cached;
      assert s.threads[t][1..] == rest;
      var next := Step(s, t);
      assert Held(next, t) == {};
      DestroyKeeps(n);
      NothingOrdered(n);
      var more := ActionsRun(next, t, DestroyQueries(n), rest);
      turns := [t] + more;
      OneTurn(s, t);
      ScheduleAppend(s, [t], more);
      assert next.threads[t := rest] == s.threads[t := rest];
    } else {
      NothingOrdered(0);
      OperationAlone(op, s.cached);
      ProgramKeeps(op, s.cached);
      turns := ActionsRun(s, t, Program(op), rest);
    }
  }

  lemma NothingOrdered(n: nat)
    ensures Ordered(DestroyQueries(n), {}, 0)
  {
    DestroyOrdered(n, []);
    assert DestroyQueries(n) + [] == DestroyQueries(n);
  }

  lemma OperationAlone(op: Operation, cached: nat)
    requires (Reopens(op) ==> cached == 0) && op != SwitchCache
    ensures Ordered(Program(op), {}, cached) && DropCache(false) !in Program(op)
  {
    OperationOrdered(op, cached, []);
    assert Program(op) + [] == Program(op);
    if op.CheckDbIsAlive? {
      NoSwitch(op.opens);
    }
  }

  function CachedAfterAll(ops: seq<Operation>, cached: nat): nat {
    if ops == [] then cached else CachedAfterAll(ops[1..], CachedAfter(ops[0], cached))
  }

  lemma {:induction false} OperationsRun(s: State, t: nat, ops: seq<Operation>, rest: seq<Action>)
    returns (turns: seq<nat>)
    requires t < |s.threads| && s.threads[t] == Programs(ops) + rest && s.owner == map[]
    requires !ReopensOverCache(ops, s.cached)
    ensures Schedule(s, turns)
    ensures After(s, turns) == State(s.threads[t := rest], map[], CachedAfterAll(ops, s.cached))
    decreases |ops|
  {
    hide Schedule, After, Program, CachedAfter, Reopens;
    if ops == [] {
      assert Programs(ops) + rest == rest && s.threads[t := rest] == s.threads;
      turns := [];
      NoTurns(s);
    } else {
      var more := Programs(ops[1..]) + rest;
      assert Programs(ops) + rest == Program(ops[0]) + more;
      turns := OperationRuns(s, t, ops[0], more);
      var next := After(s, turns);
      var others := OperationsRun(next, t, ops[1..], rest);
      ScheduleAppend(s, turns, others);
      turns := turns + others;
      assert next.threads[t := rest] == s.threads[t := rest];
    }
  }

  lemma NoTurns(s: State)
    ensures Schedule(s, []) && After(s, []) == s
  {
  }

  /** The thread owns both mutexes and waits for one of them. */
  ghost predicate Blocked(s: State, t: nat) {
    && t < |s.threads| && s.threads[t] != [] && s.threads[t][0] == Acquire(QueryMutex)
    && s.owner == map[QueryMutex := t, MonitorMutex := t] && s.cached == 0
  }

  ghost predicate OnlyMoved(s: State, t: nat, next: State) {
    |next.threads| == |s.threads| && forall u :: 0 <= u < |s.threads| && u != t ==> next.threads[u] == s.threads[u]
  }

  lemma {:induction false} AttemptsBlock(s: State, t: nat, opens: seq<bool>, rest: seq<Action>) returns (turns: seq<nat>)
    requires t < |s.threads| && s.threads[t] == Attempts(opens) + rest
    requires s.owner == map[QueryMutex := t, MonitorMutex := t] && s.cached > 0 && true in opens
    ensures Schedule(s, turns) && Blocked(After(s, turns), t) && OnlyMoved(s, t, After(s, turns))
    decreases |opens|
  {
    hide Schedule, After;
    var more := Attempts(opens[1..]) + rest;
    var next := Step(s, t);
    OneTurn(s, t);
    if opens[0] {
      assert s.threads[t][1..] == [DropCache(true)] + more;
      var dropped := Step(next, t);
      assert next.threads[t][1..] == more;
      assert dropped.threads[t][0] == Acquire(QueryMutex);
      OneTurn(next, t);
      ScheduleAppend(s, [t], [t]);
      turns := [t] + [t];
    } else {
      assert s.threads[t][1..] == more;
      var others := AttemptsBlock(next, t, opens[1..], rest);
      ScheduleAppend(s, [t], others);
      turns := [t] + others;
    }
  }

  /** A check that reopens the connection over a filled cache waits for the query mutex it owns. */
  lemma CheckBlocks(s: State, t: nat, opens: seq<bool>, rest: seq<Action>) returns (turns: seq<nat>)
    requires t < |s.threads| && s.threads[t] == Program(CheckDbIsAlive(opens)) + rest
    requires s.owner == map[] && s.cached > 0 && true in opens
    ensures Schedule(s, turns) && Blocked(After(s, turns), t) && OnlyMoved(s, t, After(s, turns))
  {
    hide Schedule, After, Attempts;
    var body := Attempts(opens) + (UNLOCK + rest);
    assert s.threads[t] == [Acquire(QueryMutex), Acquire(MonitorMutex)] + body;
    var one := Step(s, t);
    OneTurn(s, t);
    assert one.threads[t] == [Acquire(MonitorMutex)] + body;
    var two := Step(one, t);
    OneTurn(one, t);
    ScheduleAppend(s, [t], [t]);
    assert two.threads[t] == body;
    var others := AttemptsBlock(two, t, opens, UNLOCK + rest);
    ScheduleAppend(s, [t] + [t], others);
    turns := [t] + [t] + others;
  }

  lemma {:induction false} FirstOver(ops: seq<Operation>, cached: nat) returns (j: nat)
    requires ReopensOverCache(ops, cached)
    ensures j < |ops| && Reopens(ops[j])
    ensures !ReopensOverCache(ops[..j], cached) && CachedAfterAll(ops[..j], cached) > 0
  {
    hide Reopens, CachedAfter;
    if Reopens(ops[0]) && cached > 0 {
      j := 0;
    } else {
      var k := FirstOver(ops[1..], CachedAfter(ops[0], cached));
      j := k + 1;
      assert ops[..j][1..] == ops[1..][..k] && ops[..j][0] == ops[0];
    }
  }

  lemma {:induction false} ProgramsSplit(ops: seq<Operation>, j: nat)
    requires j < |ops|
    ensures Programs(ops) == Programs(ops[..j]) + (Program(ops[j]) + Programs(ops[j + 1..]))
  {
    hide Program;
    if j > 0 {
      ProgramsSplit(ops[1..], j - 1);
      assert ops[1..][..j - 1] == ops[..j][1..] && ops[1..][j..] == ops[j + 1..];
    }
  }

  lemma ThreadBlocks(s: State, t: nat, ops: seq<Operation>, rest: seq<Action>) returns (turns: seq<nat>)
    requires t < |s.threads| && s.threads[t] == Programs(ops) + rest && s.owner == map[]
    requires ReopensOverCache(ops, s.cached)
    ensures Schedule(s, turns) && Blocked(After(s, turns), t) && OnlyMoved(s, t, After(s, turns))
  {
    hide Schedule, After, Program, Programs, ReopensOverCache, CachedAfterAll, Blocked;
    var j := FirstOver(ops, s.cached);
    ProgramsSplit(ops, j);
    var more := Programs(ops[j + 1..]) + rest;
    var check := Program(ops[j]) + more;
    assert s.threads[t] == Programs(ops[..j]) + check;
    turns := OperationsRun(s, t, ops[..j], check);
    var others := CheckBlocks(After(s, turns), t, ops[j].opens, more);
    ScheduleAppend(s, turns, others);
    turns := turns + others;
  }

  /** A thread between two operations: it has ended, or next takes a mutex, or first empties the cache. */
  predicate Quiet(p: seq<Action>) {
    p == [] || p[0].Acquire? || (p[0] == DropCache(false) && Quiet(p[1..]))
  }

  lemma {:induction false} ProgramsQuiet(ops: seq<Operation>)
    ensures Quiet(Programs(ops))
  {
    if ops != [] {
      ProgramsQuiet(ops[1..]);
      if ops[0] == SwitchCache {
        assert Programs(ops)[1..] == Programs(ops[1..]);
      }
    }
  }

  predicate Settled(p: seq<Action>) {
    p == [] || p[0].Acquire?
  }

  /** Once a thread is blocked for good, the others come to a stop as well. */
  lemma {:induction false} SettleFrom(s: State, t: nat, u: nat) returns (turns: seq<nat>)
    requires Blocked(s, t) && u <= |s.threads|
    requires forall v :: 0 <= v < |s.threads| && v != t ==> Quiet(s.threads[v])
    requires forall v :: 0 <= v < u && v != t ==> Settled(s.threads[v])
    ensures Schedule(s, turns) && Stuck(After(s, turns))
    decreases |s.threads| - u, if u < |s.threads| then |s.threads[u]| else 0
  {
    hide Schedule, After;
    if u == |s.threads| {
      turns := [];
      NoTurns(s);
      assert Unfinished(s, t);
      forall v | 0 <= v < |s.threads|
        ensures !Enabled(s, v)
      {
        assert Unfinished(s, v) ==> match s.threads[v][0].lock case QueryMutex => true case MonitorMutex => true;
      }
    } else if u == t || Settled(s.threads[u]) {
      turns := SettleFrom(s, t, u + 1);
    } else {
      var next := Step(s, u);
      assert DestroyQueries(0) + s.threads[u][1..] == s.threads[u][1..];
      OneTurn(s, u);
      var others := SettleFrom(next, t, u);
      ScheduleAppend(s, [u], others);
      turns := [u] + others;
    }
  }

  lemma {:induction false} FirstReopening(ops: seq<Operation>) returns (j: nat)
    requires exists op <- ops :: Reopens(op)
    ensures j < |ops| && Reopens(ops[j]) && forall op <- ops[..j] :: !Reopens(op)
  {
    if Reopens(ops[0]) {
      j := 0;
    } else {
      var op :| op in ops && Reopens(op);
      assert op in ops[1..];
      var k := FirstReopening(ops[1..]);
      j := k + 1;
      assert ops[..j] == [ops[0]] + ops[1..][..k];
    }
  }

  lemma {:induction false} CachedSnoc(ops: seq<Operation>, cached: nat)
    ensures CachedAfterAll(ops + [CacheQuery], cached) > 0
  {
    if ops == [] {
      assert (ops + [CacheQuery])[1..] == [];
      assert CachedAfterAll([], cached + 1) == cached + 1;
    } else {
      assert (ops + [CacheQuery])[1..] == ops[1..] + [CacheQuery];
      CachedSnoc(ops[1..], CachedAfter(ops[0], cached));
    }
  }

  /** One thread reopens, another one caches: the second caches just before the first one's check. */
  lemma TwoThreadsBlock(work: seq<seq<Operation>>, cached: nat, t: nat, u: nat) returns (turns: seq<nat>, x: nat)
    requires t < |work| && u < |work| && t != u && CacheQuery in work[u] && exists op <- work[t] :: Reopens(op)
    ensures Schedule(Start(work, cached), turns) && Blocked(After(Start(work, cached), turns), x)
    ensures |After(Start(work, cached), turns).threads| == |work|
    ensures forall v :: 0 <= v < |work| && v != x ==> Quiet(After(Start(work, cached), turns).threads[v])
  {
    hide Schedule, After, Program, Programs, ReopensOverCache, CachedAfterAll, Blocked, Quiet;
    var s := Start(work, cached);
    var j := FirstReopening(work[t]);
    var k :| 0 <= k < |work[u]| && work[u][k] == CacheQuery;
    var check := Program(work[t][j]) + Programs(work[t][j + 1..]);
    var caching, left := work[u][..k] + [CacheQuery], Programs(work[u][k + 1..]);
    ProgramsSplit(work[t], j);
    NoReopening(work[t][..j], cached);
    var toCheck := OperationsRun(s, t, work[t][..j], check);
    var s1 := After(s, toCheck);
    ProgramsUpTo(work[u], k);
    assert s1.threads[u] == Programs(caching) + left;
    QuietAtStart(work);
    CheckQuiet(work[t][j], Programs(work[t][j + 1..]));
    ProgramsQuiet(work[u][k + 1..]);
    if ReopensOverCache(caching, s1.cached) {
      var blocking := ThreadBlocks(s1, u, caching, left);
      ScheduleAppend(s, toCheck, blocking);
      turns, x := toCheck + blocking, u;
    } else {
      var toCached := OperationsRun(s1, u, caching, left);
      var s2 := After(s1, toCached);
      CachedSnoc(work[u][..k], s1.cached);
      ScheduleAppend(s, toCheck, toCached);
      var blocking := CheckBlocks(s2, t, work[t][j].opens, Programs(work[t][j + 1..]));
      ScheduleAppend(s, toCheck + toCached, blocking);
      turns, x := toCheck + toCached + blocking, t;
    }
  }

  lemma CheckQuiet(op: Operation, rest: seq<Action>)
    requires Reopens(op)
    ensures Quiet(Program(op) + rest)
  {
  }

  lemma QuietAtStart(work: seq<seq<Operation>>)
    ensures forall v :: 0 <= v < |work| ==> Quiet(Programs(work[v]))
  {
    forall v | 0 <= v < |work|
      ensures Quiet(Programs(work[v]))
    {
      ProgramsQuiet(work[v]);
    }
  }

  lemma ProgramsUpTo(ops: seq<Operation>, k: nat)
    requires k < |ops|
    ensures Programs(ops) == Programs(ops[..k] + [ops[k]]) + Programs(ops[k + 1..])
  {
    hide Program, Programs;
    var front := ops[..k] + [ops[k]];
    ProgramsSplit(ops, k);
    ProgramsSplit(front, k);
    assert front[..k] == ops[..k] && front[k + 1..] == [];
    NoPrograms();
    Regrouped(Programs(ops[..k]), Program(ops[k]), Programs(ops[k + 1..]));
  }

  lemma NoPrograms()
    ensures Programs([]) == []
  {
  }

  lemma Regrouped(a: seq<Action>, b: seq<Action>, c: seq<Action>)
    ensures a + (b + c) == a + (b + []) + c
  {
  }

  lemma UnsafeGetsStuck(work: seq<seq<Operation>>, cached: nat) returns (turns: seq<nat>)
    requires !Safe(work, cached)
    ensures Schedule(Start(work, cached), turns) && Stuck(After(Start(work, cached), turns))
  {
    hide Schedule, After, Programs, ReopensOverCache, Stuck, Quiet;
    var s := Start(work, cached);
    var t :| 0 <= t < |work| && (exists op <- work[t] :: Reopens(op))
      && (ReopensOverCache(work[t], cached) || exists u :: 0 <= u < |work| && u != t && CacheQuery in work[u]);
    var x := t;
    QuietAtStart(work);
    if ReopensOverCache(work[t], cached) {
      assert Programs(work[t]) + [] == Programs(work[t]);
      turns := ThreadBlocks(s, t, work[t], []);
    } else {
      var u :| 0 <= u < |work| && u != t && CacheQuery in work[u];
      turns, x := TwoThreadsBlock(work, cached, t, u);
    }
    var others := SettleFrom(After(s, turns), x, 0);
    ScheduleAppend(s, turns, others);
    turns := turns + others;
  }

  /** No schedule gets stuck exactly if no thread that reopens a connection can find queries in the cache. */
  lemma NeverStuckExact(work: seq<seq<Operation>>, cached: nat)
    ensures (forall turns :: Schedule(Start(work, cached), turns) ==> !Stuck(After(Start(work, cached), turns)))
      <==> Safe(work, cached)
  {
    hide Schedule, After, Stuck, Safe;
    if Safe(work, cached) {
      forall turns | Schedule(Start(work, cached), turns)
        ensures !Stuck(After(Start(work, cached), turns))
      {
        NeverStuck(work, cached, turns);
      }
    } else {
      var turns := UnsafeGetsStuck(work, cached);
    }
  }

  /** One check by itself gets stuck exactly if an attempt to open succeeds while something is cached. */
  lemma OneCheckSafe(opens: seq<bool>, cached: nat)
    ensures Safe([[CheckDbIsAlive(opens)]], cached) <==> cached == 0 || true !in opens
  {
    var ops := [CheckDbIsAlive(opens)];
    assert ops[1..] == [] && [ops][0] == ops;
    assert ops[0] in ops;
    assert ReopensOverCache(ops, cached) <==> true in opens && cached > 0;
  }
}
