/** The query manager: after a lost connection every live query and subscription is rebuilt on the new one. */
module Reconnect {
  import opened Conditions
  import opened Database
  import opened Monitors
  import opened QueryCache
  import opened Semantics
  import Locks

  /** What a request to run a statement comes to: `Stale` on another session than the statement was prepared on. */
  datatype ExecAnswer = Done | Refused | Down | Stale

  /** One request for a query: the answer, and whether the connection was open and valid behind it. */
  datatype Attempt = Attempt(answer: ExecAnswer, alive: bool)

  /** A request is repeated, once, exactly if it failed and the connection is down; and it is made only if the check
      in front of it returned. */
  predicate AskedTwice(asked: seq<Attempt>, end: CheckEnd, ok: bool) {
    && |asked| <= 2
    && (end == Returned ==> asked != [])
    && (|asked| == 2 ==> end == Returned && asked[0].answer != Done && !asked[0].alive)
    && (|asked| == 1 && end == Returned ==> asked[0].answer == Done || asked[0].alive)
    && (|asked| == 1 && end != Returned ==> asked[0].answer != Done && !asked[0].alive)
    && (ok <==> end == Returned && asked[|asked| - 1].answer == Done)
  }

  /** A check returns, ends the process, or waits for ever for a mutex of its own. */
  datatype CheckEnd = Returned | Exited | Hung

  /** A live query handle; `session` is the server session it was last prepared on. */
  class SqlQuery {
    const connectionName: string
    var text: string
    var bound: Bindings
    var session: nat
    /** All requests to prepare or run it so far, those of a reconnection apart. */
    ghost var asked: seq<Attempt>

    constructor (connectionName: string)
      ensures this.connectionName == connectionName && text == "" && bound == map[] && session == 0 && asked == []
    {
      this.connectionName, text, bound, session, asked := connectionName, "", map[], 0, [];
    }

    /** Prepares on an open connection, which clears the bindings. The only failure on an open connection is that
        it drops; what then happens to the bindings is not known. */
    method PrepareWithoutCheck(text: string, db: Database) returns (ok: bool)
      modifies this`text, this`bound, this`session, db`isOpen
      ensures this.text == text && (bound == map[] || bound == old(bound))
      ensures db.isOpen ==> old(db.isOpen)
      ensures (ok <==> db.isOpen) && (ok ==> bound == map[])
      ensures session == if ok then db.session else old(session)
    {
      this.text := text;
      db.MayDrop();
      ok := db.isOpen;
      var cleared: bool := *;
      if ok || cleared {
        bound := map[];
      }
      if ok {
        session := db.session;
      }
    }

    /** A first preparation may also fail because the text is wrong. */
    method DriverPrepare(text: string, db: Database) returns (ok: bool)
      modifies this, db`isOpen
      ensures this.text == text && (bound == map[] || bound == old(bound))
      ensures db.isOpen ==> old(db.isOpen)
      ensures ok ==> db.isOpen && session == db.session && bound == map[]
      ensures !ok ==> session == old(session)
      ensures |asked| == |old(asked)| + 1 && asked[..|old(asked)|] == old(asked)
      ensures asked[|old(asked)|].alive == (db.isOpen && db.isValid) && (ok <==> asked[|old(asked)|].answer == Done)
    {
      this.text := text;
      var accepted: bool := *;
      if accepted {
        ok := PrepareWithoutCheck(text, db);
      } else {
        db.MayDrop();
        ok := false;
      }
      asked := asked + [Attempt(if ok then Done else if accepted then Down else Refused, db.isOpen && db.isValid)];
    }

    /** Runs the prepared statement. */
    method DriverExec(db: Database) returns (answer: ExecAnswer)
      modifies db`isOpen, this`asked
      ensures asked == old(asked) + [Attempt(answer, db.isOpen && db.isValid)]
      ensures db.isOpen ==> old(db.isOpen)
      ensures answer == Down <==> !old(db.isOpen)
      ensures answer == Stale <==> old(db.isOpen) && session != db.session
    {
      var granted: bool := *;
      answer := if !db.isOpen then Down else if session != db.session then Stale else if granted then Done else Refused;
      db.MayDrop();
      asked := asked + [Attempt(answer, db.isOpen && db.isValid)];
    }

    method BindValue(placeholder: string, value: Variant)
      modifies this`bound
      ensures bound == old(bound)[placeholder := value]
    {
      bound := bound[placeholder := value];
    }

    method BindAll(values: Bindings)
      requires bound == map[] || bound == values
      modifies this`bound
      ensures bound == values
    {
      var keys := values.Keys;
      while keys != {}
        invariant keys <= values.Keys && bound.Keys <= values.Keys
        invariant forall k <- bound :: bound[k] == values[k]
        invariant forall k <- values :: k in keys || k in bound
      {
        var k :| k in keys;
        BindValue(k, values[k]);
        keys := keys - {k};
      }
    }
  }

  class SqlQueryManager {
    var queries: seq<SqlQuery>
    var monitors: seq<SqlMonitor>

    constructor ()
      ensures queries == [] && monitors == []
    {
      queries, monitors := [], [];
    }

    method RegisterQuery(q: SqlQuery)
      modifies this`queries
      ensures queries == old(queries) + [q]
    {
      queries := queries + [q];
    }

    method UnregisterQuery(q: SqlQuery)
      modifies this`queries
      ensures queries == Without(old(queries), q)
      ensures q !in queries && multiset(queries) == multiset(old(queries))[q := 0]
    {
      WithoutExact(queries, q);
      queries := Without(queries, q);
    }

    /** The channels the monitors of one connection want. */
    ghost function Wanted(name: string): set<string>
      reads this, monitors
    {
      WantedBy(monitors, name)
    }

    /** While the connection is open, every live query on it is prepared on the current session. */
    ghost predicate Current(db: Database)
      reads this, db, queries
    {
      db.isOpen ==> forall q <- queries :: q.connectionName == db.name && q.text != "" ==> q.session == db.session
    }

    /** Saves the bindings of the live queries of one connection. */
    method SaveBindings(name: string) returns (saved: map<SqlQuery, Bindings>)
      ensures forall q <- queries :: q.connectionName == name ==> q in saved && saved[q] == q.bound
    {
      saved := map[];
      for i := 0 to |queries|
        invariant forall j :: 0 <= j < i && queries[j].connectionName == name ==>
          queries[j] in saved && saved[queries[j]] == queries[j].bound
      {
        var q := queries[i];
        if q.connectionName == name {
          saved := saved[q := q.bound];
        }
      }
    }

    method PrepareAgain(db: Database, saved: map<SqlQuery, Bindings>)
      requires forall q <- queries :: q.connectionName == db.name ==> q in saved && saved[q] == q.bound
      modifies db`isOpen, queries
      ensures db.isOpen ==> old(db.isOpen)
      ensures forall q <- queries :: q.text == old(q.text) && q.bound == old(q.bound) && q.asked == old(q.asked)
      ensures forall q <- queries :: q.connectionName != db.name ==> q.session == old(q.session)
      ensures db.isOpen ==> forall q <- queries :: q.connectionName == db.name && q.text != "" ==> q.session == db.session
    {
      for i := 0 to |queries|
        invariant db.isOpen ==> old(db.isOpen)
        invariant forall q <- queries :: q.text == old(q.text) && q.bound == old(q.bound) && q.asked == old(q.asked)
        invariant forall q <- queries :: q.connectionName != db.name ==> q.session == old(q.session)
        invariant db.isOpen ==>
          forall j :: 0 <= j < i && queries[j].connectionName == db.name && queries[j].text != "" ==>
            queries[j].session == db.session
      {
        var q := queries[i];
        if q.connectionName == db.name && q.text != "" {
          var str := q.text;
          var _ := q.PrepareWithoutCheck(str, db);
          q.BindAll(saved[q]);
        }
      }
    }

    method Resubscribe(db: Database)
      modifies db`isOpen, db`subscriptions
      ensures db.isOpen ==> old(db.isOpen) && db.subscriptions == Wanted(db.name)
    {
      var notifications := db.subscriptions;
      while notifications != {}
        invariant db.isOpen ==> old(db.isOpen) && db.subscriptions == notifications
      {
        var n :| n in notifications;
        db.Unsubscribe(n);
        notifications := notifications - {n};
      }
      for i := 0 to |monitors|
        invariant db.isOpen ==> old(db.isOpen) && db.subscriptions == WantedBy(monitors[..i], db.name)
      {
        var m := monitors[i];
        WantedByOneMore(monitors, i, db.name);
        if m.db.name == db.name {
          m.Resubscribe(db);
        }
      }
      assert monitors[..|monitors|] == monitors;
    }

    /** Reopens a connection while it is down, at most ten times, and rebuilds what lives on it. `opens` are the driver's
        answers. On the main thread a connection that is down ends the process. Clearing the cache destroys the queries
        in it, and each of them unregisters itself, which takes the mutex this check holds: a check that reopens the
        connection over a filled cache never returns. */
    method CheckDbIsAlive(db: Database, cache: SqlQueryCache, mainThread: bool)
      returns (end: CheckEnd, ghost opens: seq<bool>)
      modifies db, cache, queries
      ensures end == Exited <==> mainThread && !(old(db.isOpen) && old(db.isValid))
      ensures end == Exited || (old(db.isOpen) && old(db.isValid)) ==> unchanged(db)
      ensures |opens| <= 10 && db.opens == old(db.opens) + |opens|
      ensures db.openings == old(db.openings) + Openings(opens)
      ensures old(db.session) <= db.session && (db.session > old(db.session) <==> true in opens)
      ensures end == Hung <==> !Locks.Safe([[Locks.CheckDbIsAlive(opens)]], |CachedKeys(old(cache.State()))|)
      ensures end == Hung <==> db.session > old(db.session) && Filled(old(cache.State()))
      ensures end == Returned ==> (db.isOpen && db.isValid) || |opens| == 10
      ensures forall q <- queries :: q.text == old(q.text) && q.bound == old(q.bound) && q.asked == old(q.asked)
      ensures forall q <- queries :: q.connectionName != db.name ==> q.session == old(q.session)
      ensures db.session == old(db.session) || end == Hung ==>
        && db.subscriptions == old(db.subscriptions) && cache.State() == old(cache.State())
        && forall q <- queries :: q.session == old(q.session)
      ensures end != Hung && old(Current(db)) ==> Current(db)
      ensures end == Returned && db.session > old(db.session) ==> cache.State() == Step(old(cache.State()), Clear)
      ensures end == Returned && db.session > old(db.session) && db.isOpen ==>
        && db.subscriptions == Wanted(db.name)
        && forall q <- queries :: q.connectionName == db.name && q.text != "" ==> q.session == db.session
    {
      hide Locks.Safe, CachedKeys, WantedBy, Filled;
      opens := [];
      ClearedIsEmpty(cache.State());
      FilledExact(cache.State());
      var allBoundValues := SaveBindings(db.name);
      var retryCount := 0;
      while !db.isOpen || !db.isValid
        invariant 0 <= retryCount <= 10 && db.opens == old(db.opens) + retryCount && |opens| == retryCount
        invariant db.openings == old(db.openings) + Openings(opens)
        invariant old(db.session) <= db.session && (db.session > old(db.session) <==> true in opens)
        invariant if retryCount == 0 then unchanged(db) else !(old(db.isOpen) && old(db.isValid))
        invariant mainThread ==> retryCount == 0
        invariant forall q <- queries :: q.text == old(q.text) && q.bound == old(q.bound) && q.asked == old(q.asked)
        invariant forall q <- queries :: q.connectionName != db.name ==> q.session == old(q.session)
        invariant db.session == old(db.session) ==>
          && (db.isOpen ==> old(db.isOpen))
          && db.subscriptions == old(db.subscriptions) && cache.State() == old(cache.State())
          && forall q <- queries :: q.session == old(q.session)
        invariant db.session > old(db.session) ==>
          !Filled(old(cache.State())) && cache.State() == Step(old(cache.State()), Clear)
        invariant db.session > old(db.session) && db.isOpen ==>
          && db.subscriptions == Wanted(db.name)
          && forall q <- queries :: q.connectionName == db.name && q.text != "" ==> q.session == db.session
        decreases 10 - retryCount
      {
        if mainThread {
          Locks.OneCheckSafe(opens, |CachedKeys(old(cache.State()))|);
          return Exited, opens;
        }
        retryCount := retryCount + 1;
        if retryCount > 10 {
          Locks.OneCheckSafe(opens, |CachedKeys(old(cache.State()))|);
          return Returned, opens;
        }
        var ok := db.Open();
        OneMoreOpening(old(db.openings), opens, ok);
        opens := opens + [ok];
        if ok {
          if Filled(cache.State()) {
            Locks.OneCheckSafe(opens, |CachedKeys(old(cache.State()))|);
            return Hung, opens;
          }
          cache.ClearAll();
          PrepareAgain(db, allBoundValues);
          Resubscribe(db);
        }
      }
      Locks.OneCheckSafe(opens, |CachedKeys(old(cache.State()))|);
      end := Returned;
    }

    /** Checks, prepares, and after a loss of the connection checks and prepares once more. `ok` is false where the
        source throws. */
    method Prepare(q: SqlQuery, text: string, db: Database, cache: SqlQueryCache, mainThread: bool)
      returns (ok: bool, end: CheckEnd)
      requires q in queries && q.connectionName == db.name
      modifies db, cache, queries
      ensures forall p <- queries :: p != q ==> p.text == old(p.text) && p.bound == old(p.bound)
      ensures end == Hung <==> db.session > old(db.session) && Filled(old(cache.State()))
      ensures ok ==> q.text == text && q.bound == map[]
      ensures old(q.asked) <= q.asked && AskedTwice(q.asked[|old(q.asked)|..], end, ok)
      ensures forall p <- queries :: p != q ==> p.asked == old(p.asked)
      ensures ok && old(Current(db)) ==> Current(db)
      ensures db.opens <= old(db.opens) + 20
    {
      hide Filled, Step, CachedKeys, Locks.Safe, WantedBy;
      ClearedIsEmpty(cache.State());
      ghost var opens;
      ok := false;
      end, opens := CheckDbIsAlive(db, cache, mainThread);
      if end != Returned {
        return;
      }
      ok := q.DriverPrepare(text, db);
      if !ok && (!db.isOpen || !db.isValid) {
        end, opens := CheckDbIsAlive(db, cache, mainThread);
        if end != Returned {
          return;
        }
        ok := q.DriverPrepare(text, db);
      }
    }

    /** Checks, runs, and after a loss of the connection checks and runs once more. Whatever happens to the connection in
        between, the query keeps its text and bindings, and the driver never has to refuse it as prepared on another
        session: not at the first request, and not at the second after a new connection. */
    method Exec(q: SqlQuery, db: Database, cache: SqlQueryCache, mainThread: bool)
      returns (ok: bool, end: CheckEnd, ghost asked: seq<Attempt>)
      requires q in queries && q.connectionName == db.name
      modifies db, cache, queries
      ensures forall p <- queries :: p.text == old(p.text) && p.bound == old(p.bound)
      ensures end == Hung <==> db.session > old(db.session) && Filled(old(cache.State()))
      ensures q.asked == old(q.asked) + asked && AskedTwice(asked, end, ok)
      ensures old(Current(db)) && q.text != "" ==> forall a <- asked :: a.answer != Stale
      ensures forall p <- queries :: p != q ==> p.asked == old(p.asked)
      ensures end != Hung && old(Current(db)) ==> Current(db)
      ensures db.opens <= old(db.opens) + 20
    {
      hide Filled, Step, CachedKeys, Locks.Safe, WantedBy;
      ClearedIsEmpty(cache.State());
      ghost var opens;
      ok, asked := false, [];
      end, opens := CheckDbIsAlive(db, cache, mainThread);
      if end != Returned {
        return;
      }
      var answer := q.DriverExec(db);
      asked := [Attempt(answer, db.isOpen && db.isValid)];
      if answer != Done && (!db.isOpen || !db.isValid) {
        end, opens := CheckDbIsAlive(db, cache, mainThread);
        if end != Returned {
          return;
        }
        answer := q.DriverExec(db);
        asked := asked + [Attempt(answer, db.isOpen && db.isValid)];
      }
      ok := answer == Done;
    }
  }

  /** Calls of `Open` with these answers, each on a connection that is down. */
  function Openings(opens: seq<bool>): seq<Opening> {
    seq(|opens|, i requires 0 <= i < |opens| => Opening(false, opens[i]))
  }

  lemma OneMoreOpening(log: seq<Opening>, opens: seq<bool>, ok: bool)
    ensures log + Openings(opens) + [Opening(false, ok)] == log + Openings(opens + [ok])
    ensures log + Openings([]) == log
  {
  }

  lemma ClearedIsEmpty(s: CacheState)
    ensures !Filled(Step(s, Clear))
  {
  }

  function Without<T(==)>(s: seq<T>, x: T): seq<T> {
    if s == [] then [] else (if s[0] == x then [] else [s[0]]) + Without(s[1..], x)
  }

  /** All occurrences are gone, and all others stay. */
  lemma {:induction false} WithoutExact<T>(s: seq<T>, x: T)
    ensures x !in Without(s, x) && multiset(Without(s, x)) == multiset(s)[x := 0]
  {
    if s != [] {
      WithoutExact(s[1..], x);
      assert s == [s[0]] + s[1..];
      if s[0] != x {
        assert multiset(Without(s, x)) == multiset{s[0]} + multiset(Without(s[1..], x));
      }
    }
  }

  /** Their order stays. */
  lemma {:induction false} WithoutConcat<T>(s: seq<T>, t: seq<T>, x: T)
    ensures Without(s + t, x) == Without(s, x) + Without(t, x)
  {
    if s == [] {
      assert s + t == t;
    } else {
      assert (s + t)[0] == s[0] && (s + t)[1..] == s[1..] + t;
      WithoutConcat(s[1..], t, x);
    }
  }

  ghost function WantedBy(monitors: seq<SqlMonitor>, name: string): set<string>
    reads monitors
  {
    set m, c | m in monitors && m.db.name == name && c in m.tables + m.monitoredValues :: c
  }

  lemma WantedByOneMore(monitors: seq<SqlMonitor>, i: nat, name: string)
    requires i < |monitors|
    ensures WantedBy(monitors[..i + 1], name) == WantedBy(monitors[..i], name)
      + if monitors[i].db.name == name then (set c | c in monitors[i].tables + monitors[i].monitoredValues) else {}
  {
    assert monitors[..i + 1] == monitors[..i] + [monitors[i]];
  }

  lemma InWanted(monitors: seq<SqlMonitor>, name: string, c: string)
    ensures c in WantedBy(monitors, name)
      <==> exists m <- monitors :: m.db.name == name && (c in m.tables || c in m.monitoredValues)
  {
    assert forall m: SqlMonitor :: c in m.tables + m.monitoredValues <==> c in m.tables || c in m.monitoredValues;
  }

  lemma ValuesAreNoTables(m: SqlMonitor, other: SqlMonitor)
    requires m.Valid() && other.Valid()
    ensures forall c <- other.tables :: c !in m.monitoredValues
  {
    forall c <- other.tables ensures c !in m.monitoredValues {
      if c in m.monitoredValues {
        var t :| c == TableChannel(t);
        var v, h :| c == ValueChannel(v, h);
        ChannelsDiffer(v, h, t);
      }
    }
  }

  ghost predicate SharesValue(m: SqlMonitor, other: SqlMonitor)
    reads m, other
  {
    m.db.name == other.db.name && exists c <- m.monitoredValues :: c in other.monitoredValues
  }

  /** A monitor that unsubscribes its value channels never takes away a table channel, its own or another's. What the
      others on its connection want stays subscribed exactly if none of them shares a value. */
  lemma UnsubscribeExact(m: SqlMonitor, others: seq<SqlMonitor>, subscriptions: set<string>)
    requires m.Valid() && forall other <- others :: other.Valid()
    requires WantedBy(others, m.db.name) + (set c | c in m.tables) <= subscriptions
    ensures
      var left := subscriptions - set c | c in m.monitoredValues;
      && (forall c <- m.tables :: c in left)
      && (forall other <- others, c <- other.tables :: other.db.name == m.db.name ==> c in left)
      && (WantedBy(others, m.db.name) <= left <==> forall other <- others :: !SharesValue(m, other))
  {
    hide WantedBy, SharesValue, SqlMonitor.Valid;
    var left := subscriptions - set c | c in m.monitoredValues;
    ValuesAreNoTables(m, m);
    forall other <- others ensures forall c <- other.tables :: other.db.name == m.db.name ==> c in left {
      ValuesAreNoTables(m, other);
      forall c <- other.tables | other.db.name == m.db.name ensures c in left {
        InWanted(others, m.db.name, c);
      }
    }
    if other :| other in others && SharesValue(m, other) {
      var c := SharedValue(m, other);
      InWanted(others, m.db.name, c);
      assert c in WantedBy(others, m.db.name) && c !in left;
    } else {
      forall c <- WantedBy(others, m.db.name) ensures c in left {
        InWanted(others, m.db.name, c);
        var other :| other in others && other.db.name == m.db.name && (c in other.tables || c in other.monitoredValues);
        if c !in left {
          ValuesAreNoTables(m, other);
          SharesIf(m, other, c);
        }
      }
    }
  }

  lemma SharedValue(m: SqlMonitor, other: SqlMonitor) returns (c: string)
    requires SharesValue(m, other)
    ensures c in m.monitoredValues && c in other.monitoredValues && m.db.name == other.db.name
  {
    c :| c in m.monitoredValues && c in other.monitoredValues;
  }

  lemma SharesIf(m: SqlMonitor, other: SqlMonitor, c: string)
    requires c in m.monitoredValues && c in other.monitoredValues && m.db.name == other.db.name
    ensures SharesValue(m, other)
  {
  }

  /** Two monitors of one connection watch the same value; when one of them stops, the other is not told any more. */
  method SharedValueLost(db: Database, value: string, hash: Hash) returns (m: SqlMonitor, other: SqlMonitor)
    modifies db`isOpen, db`subscriptions
    ensures fresh(m) && fresh(other) && ValueChannel(value, hash) in other.monitoredValues
    ensures db.isOpen ==> ValueChannel(value, hash) !in db.subscriptions
  {
    hide ValueChannel;
    m := new SqlMonitor(db);
    other := new SqlMonitor(db);
    var _ := m.AddValueMonitor(value, hash);
    var _ := other.AddValueMonitor(value, hash);
    m.UnsubscribeValuesNotifications();
  }
}
