/** The per-connection cache of prepared queries. */
module QueryCache {
  import opened Semantics
  import opened Tokens

  /** A prepared query: its connection, its text and what is bound to its placeholders. */
  datatype Handle = Handle(connection: string, text: string, bound: Bindings)

  /** The cache proper: connection name, then statement. */
  datatype CacheState = CacheState(entries: map<string, map<string, Handle>>, enabled: bool)

  const FRESH := CacheState(map[], true)

  datatype Event =
    | Insert(connection: string, statement: string, handle: Handle)
    | Clear
    | SetEnabled(flag: bool)

  function Step(s: CacheState, e: Event): CacheState {
    match e
    case Insert(connection, statement, handle) =>
      if !s.enabled then s
      else
        var inner := if connection in s.entries then s.entries[connection] else map[];
        s.(entries := s.entries[connection := inner[statement := handle]])
    case Clear => s.(entries := map[])
    case SetEnabled(flag) => CacheState(map[], flag)
  }

  function Replay(history: seq<Event>): CacheState {
    if history == [] then FRESH else Step(Replay(history[..|history| - 1]), history[|history| - 1])
  }

  function Find(s: CacheState, connection: string, statement: string): Result<Handle> {
    if connection in s.entries && statement in s.entries[connection]
    then Success(s.entries[connection][statement]) else Failure
  }

  /** The keys some query is cached under. */
  function CachedKeys(s: CacheState): set<(string, string)> {
    set c, t | c in s.entries && t in s.entries[c] :: (c, t)
  }

  predicate Filled(s: CacheState) {
    exists c :: c in s.entries && s.entries[c] != map[]
  }

  lemma FilledExact(s: CacheState)
    ensures Filled(s) <==> |CachedKeys(s)| > 0
  {
    if c :| c in s.entries && s.entries[c] != map[] {
      var t :| t in s.entries[c];
      assert (c, t) in CachedKeys(s);
    }
    if |CachedKeys(s)| > 0 {
      var key :| key in CachedKeys(s);
      assert key.0 in s.entries && key.1 in s.entries[key.0];
    }
  }

  // ----- the flat reading of a history -----

  /** Whether the cache is on at the end of a history: what the last switch says. */
  function EnabledAfter(history: seq<Event>): bool {
    if history == [] then true
    else
      var last := history[|history| - 1];
      if last.SetEnabled? then last.flag else EnabledAfter(history[..|history| - 1])
  }

  /** The last handle inserted for this key while the cache was on, unless everything was dropped since. */
  function LastInserted(history: seq<Event>, connection: string, statement: string): Result<Handle> {
    if history == [] then Failure
    else
      var before, last := history[..|history| - 1], history[|history| - 1];
      match last
      case Insert(c, s, handle) =>
        if c == connection && s == statement && EnabledAfter(before) then Success(handle)
        else LastInserted(before, connection, statement)
      case _ => Failure
  }

  /** The nested map is the flat map of its history. */
  lemma {:induction false} CacheRefines(history: seq<Event>, connection: string, statement: string)
    ensures Replay(history).enabled == EnabledAfter(history)
    ensures Find(Replay(history), connection, statement) == LastInserted(history, connection, statement)
  {
    if history != [] {
      CacheRefines(history[..|history| - 1], connection, statement);
    }
  }

  /** Every cached handle is prepared with the statement it is filed under, on its connection. */
  ghost predicate Honest(s: CacheState) {
    forall c, t :: Find(s, c, t).Success? ==> Find(s, c, t).value.connection == c && Find(s, c, t).value.text == t
  }

  predicate HonestEvent(e: Event) {
    e.Insert? ==> e.handle.connection == e.connection && e.handle.text == e.statement
  }

  lemma StepHonest(s: CacheState, e: Event)
    requires Honest(s) && HonestEvent(e)
    ensures Honest(Step(s, e))
  {
    forall c, t | Find(Step(s, e), c, t).Success?
      ensures Find(Step(s, e), c, t).value.connection == c && Find(Step(s, e), c, t).value.text == t
    {
      if Find(Step(s, e), c, t) != Find(s, c, t) {
        assert e.Insert? && c == e.connection && t == e.statement;
      }
    }
  }

  class SqlQueryCache {
    var entries: map<string, map<string, Handle>>
    var enabled: bool

    function State(): CacheState
      reads this
    {
      CacheState(entries, enabled)
    }

    constructor ()
      ensures State() == FRESH
    {
      entries, enabled := map[], true;
    }

    method Contains(connection: string, statement: string) returns (b: bool)
      ensures b <==> enabled && Find(State(), connection, statement).Success?
    {
      if !enabled {
        return false;
      }
      b := connection in entries && statement in entries[connection];
    }

    method Query(connection: string, statement: string) returns (h: Handle)
      requires Find(State(), connection, statement).Success?
      ensures h == Find(State(), connection, statement).value
    {
      h := entries[connection][statement];
    }

    method InsertQuery(connection: string, statement: string, handle: Handle)
      modifies this
      ensures State() == Step(old(State()), Insert(connection, statement, handle))
    {
      if enabled {
        var inner := if connection in entries then entries[connection] else map[];
        entries := entries[connection := inner[statement := handle]];
      }
    }

    method ClearAll()
      modifies this
      ensures State() == Step(old(State()), Clear)
    {
      entries := map[];
    }

    method Enable(flag: bool)
      modifies this
      ensures State() == Step(old(State()), SetEnabled(flag))
    {
      enabled := flag;
      ClearAll();
    }
  }

  /** A request to prepare a statement, and whether the driver accepts it. */
  datatype Preparation = Preparation(connection: string, statement: string, ok: bool)

  class Driver {
    /** All requests so far, in order. */
    ghost var prepared: seq<Preparation>

    constructor ()
      ensures prepared == []
    {
      prepared := [];
    }

    method Prepare(connection: string, statement: string) returns (ok: bool)
      modifies this
      ensures prepared == old(prepared) + [Preparation(connection, statement, ok)]
    {
      ok := *;
      prepared := prepared + [Preparation(connection, statement, ok)];
    }
  }

  predicate Hit(s: CacheState, connection: string, statement: string) {
    s.enabled && Find(s, connection, statement).Success?
  }

  /** A cached statement is not prepared again; any other one is, once, and its fate is the driver's answer. */
  predicate PreparedOnce(before: CacheState, log: seq<Preparation>, after: seq<Preparation>,
                         connection: string, statement: string, ok: bool)
  {
    if Hit(before, connection, statement) then ok && after == log
    else after == log + [Preparation(connection, statement, ok)]
  }

  /** A builder's way to a query: a copy of the cached one, or a new one that is prepared and cached. `false` stands
      for the exception of a failed prepare. Copies of a cached query share their bindings, so a hit may come with
      bindings left over. Preparing checks the connection first; a check that clears the cache returns only if there
      was nothing in it (see `Reconnect`), so it leaves the cache as it was. */
  method PrepareQuery(cache: SqlQueryCache, driver: Driver, connection: string, statement: string)
    returns (ok: bool, q: Handle)
    requires Honest(cache.State())
    modifies cache, driver
    ensures PreparedOnce(old(cache.State()), old(driver.prepared), driver.prepared, connection, statement, ok)
    ensures Honest(cache.State())
    ensures ok ==> q.connection == connection && q.text == statement
    ensures ok && !Hit(old(cache.State()), connection, statement) ==> q.bound == map[]
    ensures ok && cache.enabled ==> Find(cache.State(), connection, statement).Success?
    ensures !ok ==> cache.State() == old(cache.State())
  {
    var hit := cache.Contains(connection, statement);
    if hit {
      q := cache.Query(connection, statement);
      var leftOver: Bindings := *;
      return true, q.(bound := leftOver);
    }
    q := Handle(connection, statement, map[]);
    ok := driver.Prepare(connection, statement);
    if ok {
      StepHonest(cache.State(), Insert(connection, statement, q));
      cache.InsertQuery(connection, statement, q);
    }
  }
}
