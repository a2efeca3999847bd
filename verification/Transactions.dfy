/** Reference-counted transactions: many handles, one driver transaction per connection. */
module Transactions {

  /** A statement that writes; the update of the schema version is told apart from all others. */
  datatype Write = Sql(text: string) | VersionUpdate(version: int)

  // ----- the driver's side of a connection -----

  /** A refused request leaves the connection as it was; statements outside a transaction commit at once. */
  datatype Db = Db(inTransaction: bool, durable: seq<Write>, pending: seq<Write>)

  function DbBegin(db: Db, ok: bool): Db {
    if ok && !db.inTransaction then Db(true, db.durable, []) else db
  }

  function DbCommit(db: Db, ok: bool): Db {
    if ok && db.inTransaction then Db(false, db.durable + db.pending, []) else db
  }

  function DbRollback(db: Db, ok: bool): Db {
    if ok then Db(false, db.durable, []) else db
  }

  function DbWrite(db: Db, w: Write): Db {
    if db.inTransaction then db.(pending := db.pending + [w]) else db.(durable := db.durable + [w])
  }

  // ----- what one call does to a connection and its count -----

  /** The driver's answers to the first request and to the one repeated after a check of the connection. */
  datatype Answers = Answers(first: bool, second: bool) {
    predicate Refused() {
      !first && !second
    }
  }

  datatype Outcome = Outcome(db: Db, count: int, ok: bool)

  function BeginOn(db: Db, count: int, a: Answers): Outcome {
    if count != 0 then Outcome(db, count + 1, true)
    else if a.Refused() then Outcome(db, count, false)
    else Outcome(DbBegin(db, true), count + 1, true)
  }

  function CommitOn(db: Db, count: int, a: Answers): Outcome {
    if count != 1 then Outcome(db, count - 1, true)
    else if a.Refused() then Outcome(db, count, false)
    else Outcome(DbCommit(db, true), count - 1, true)
  }

  /** An explicit rollback gives up the handle before it asks the driver. */
  function RollbackOn(db: Db, count: int, a: Answers): Outcome {
    if count != 1 then Outcome(db, count - 1, true)
    else Outcome(DbRollback(db, !a.Refused()), count - 1, !a.Refused())
  }

  /** The destructor of an armed handle asks once and ignores the answer. */
  function DestroyOn(db: Db, count: int, answer: bool): Outcome {
    Outcome(if count == 1 then DbRollback(db, answer) else db, count - 1, true)
  }

  // ----- what is asked of the driver -----

  datatype Wish = Beginning | Committing | RollingBack | Writing(write: Write) | ReadingVersion

  /** One request and the driver's answer. */
  datatype Request = Request(wish: Wish, granted: bool)

  /** A request that is made again, once, exactly if it is refused. */
  function Asked(wish: Wish, a: Answers): seq<Request> {
    [Request(wish, a.first)] + if a.first then [] else [Request(wish, a.second)]
  }

  /** The first `n` of the given writes are granted, and the next one, if there is one, is refused. */
  function Written(ws: seq<Write>, n: nat): seq<Request>
    requires n <= |ws|
  {
    seq(n, i requires 0 <= i < n => Request(Writing(ws[i]), true))
    + if n < |ws| then [Request(Writing(ws[n]), false)] else []
  }

  lemma NothingWritten(ws: seq<Write>)
    ensures ws == [] ==> Written(ws, 0) == []
  {
  }

  lemma WrittenStep(log: seq<Request>, ws: seq<Write>, n: nat)
    requires n < |ws|
    ensures log + Written(ws[..n], n) + [Request(Writing(ws[n]), true)] == log + Written(ws[..n + 1], n + 1)
    ensures log + Written(ws[..n], n) + [Request(Writing(ws[n]), false)] == log + Written(ws, n)
  {
    assert Written(ws[..n], n) + [Request(Writing(ws[n]), true)] == Written(ws[..n + 1], n + 1);
    assert Written(ws[..n], n) + [Request(Writing(ws[n]), false)] == Written(ws, n);
  }

  /** The answers to a handle's begin, to its writes, to its commit and to the rollback of an abandoned handle. */
  datatype GroupAnswers = GroupAnswers(begun: Answers, n: nat, done: Answers, undone: bool)

  predicate Began(count: int, a: GroupAnswers) {
    count != 0 || !a.begun.Refused()
  }

  predicate Saved(count: int, ws: seq<Write>, a: GroupAnswers) {
    Began(count, a) && a.n == |ws| && (count != 0 || !a.done.Refused())
  }

  /** What a handle that runs the given writes asks of the driver: begin and end only as the connection's only handle,
      the writes in order up to the first refused one, a commit only after all of them, and a rollback if anything
      failed. */
  function GroupRequests(count: int, ws: seq<Write>, a: GroupAnswers): seq<Request>
    requires a.n <= |ws|
  {
    (if count == 0 then Asked(Beginning, a.begun) else [])
    + if !Began(count, a) then []
      else
        Written(ws, a.n)
        + (if a.n == |ws| && count == 0 then Asked(Committing, a.done) else [])
        + (if count == 0 && !Saved(count, ws, a) then [Request(RollingBack, a.undone)] else [])
  }

  /** The record of a handle, put together from its four stages. */
  lemma GroupLogged(count: int, ws: seq<Write>, a: GroupAnswers, log: seq<Request>, begun: seq<Request>,
                    written: seq<Request>, ended: seq<Request>, all: seq<Request>)
    requires count >= 0 && a.n <= |ws| && Began(count, a)
    requires begun == log + if count == 0 then Asked(Beginning, a.begun) else []
    requires written == begun + Written(ws, a.n)
    requires ended == written + if a.n == |ws| && count == 0 then Asked(Committing, a.done) else []
    requires all == ended + if count == 0 && !Saved(count, ws, a) then [Request(RollingBack, a.undone)] else []
    ensures all == log + GroupRequests(count, ws, a)
  {
    hide Written, Asked;
    var b := if count == 0 then Asked(Beginning, a.begun) else [];
    var w := Written(ws, a.n);
    var c := if a.n == |ws| && count == 0 then Asked(Committing, a.done) else [];
    var r := if count == 0 && !Saved(count, ws, a) then [Request(RollingBack, a.undone)] else [];
    assert all == log + b + w + c + r;
    assert log + b + w + c + r == log + (b + (w + c + r));
  }

  lemma NeverBegun(log: seq<Request>, ws: seq<Write>, a: GroupAnswers)
    requires a.n <= |ws| && !Began(0, a)
    ensures log + Asked(Beginning, a.begun) == log + GroupRequests(0, ws, a)
  {
  }

  // ----- the handles as objects -----

  class Connection {
    const name: string
    var db: Db
    /** All requests so far, in order. */
    ghost var requests: seq<Request>

    constructor (name: string)
      ensures this.name == name && db == Db(false, [], []) && requests == []
    {
      this.name, db, requests := name, Db(false, [], []), [];
    }

    method Transaction() returns (ok: bool)
      modifies this
      ensures db == DbBegin(old(db), ok) && requests == old(requests) + [Request(Beginning, ok)]
    {
      ok := *;
      requests := requests + [Request(Beginning, ok)];
      if ok && !db.inTransaction {
        db := Db(true, db.durable, []);
      }
    }

    method Commit() returns (ok: bool)
      modifies this
      ensures db == DbCommit(old(db), ok) && requests == old(requests) + [Request(Committing, ok)]
    {
      ok := *;
      requests := requests + [Request(Committing, ok)];
      if ok && db.inTransaction {
        db := Db(false, db.durable + db.pending, []);
      }
    }

    method Rollback() returns (ok: bool)
      modifies this
      ensures db == DbRollback(old(db), ok) && requests == old(requests) + [Request(RollingBack, ok)]
    {
      ok := *;
      requests := requests + [Request(RollingBack, ok)];
      if ok {
        db := Db(false, db.durable, []);
      }
    }

    /** Runs a statement that writes; a refused one has no effect. */
    method Exec(w: Write) returns (ok: bool)
      modifies this
      ensures db == if ok then DbWrite(old(db), w) else old(db)
      ensures requests == old(requests) + [Request(Writing(w), ok)]
    {
      ok := *;
      requests := requests + [Request(Writing(w), ok)];
      if ok {
        db := DbWrite(db, w);
      }
    }

    /** Reads the stored version. */
    method ReadVersion() returns (ok: bool)
      modifies this`requests
      ensures requests == old(requests) + [Request(ReadingVersion, ok)]
    {
      ok := *;
      requests := requests + [Request(ReadingVersion, ok)];
    }
  }

  function CountOf(counts: map<string, int>, name: string): int {
    if name in counts then counts[name] else 0
  }

  /** The table all handles share. */
  class RefCounts {
    var counts: map<string, int>

    constructor ()
      ensures counts == map[]
    {
      counts := map[];
    }

    function Value(name: string): int
      reads this
    {
      CountOf(counts, name)
    }

    /** How many keys the table has; keys are never removed. */
    method TransactionsCount() returns (n: nat)
      ensures n == |counts|
    {
      n := |counts|;
    }
  }

  class SqlTransaction {
    const connection: Connection
    const refs: RefCounts
    var disarmed: bool

    constructor Armed(connection: Connection, refs: RefCounts)
      ensures this.connection == connection && this.refs == refs && !disarmed
    {
      this.connection, this.refs, disarmed := connection, refs, false;
    }

    /** The constructor of the source; `ok` is false where it throws. */
    static method Start(connection: Connection, refs: RefCounts)
      returns (t: SqlTransaction?, ok: bool, ghost answers: Answers)
      modifies connection, refs
      ensures var o := BeginOn(old(connection.db), old(refs.Value(connection.name)), answers);
        && ok == o.ok && connection.db == o.db
        && refs.counts == if o.ok then old(refs.counts)[connection.name := o.count] else old(refs.counts)
      ensures connection.requests
        == old(connection.requests) + if old(refs.Value(connection.name)) == 0 then Asked(Beginning, answers) else []
      ensures ok ==> t != null && fresh(t) && t.connection == connection && t.refs == refs && !t.disarmed
      ensures !ok ==> t == null
    {
      t, ok, answers := null, true, Answers(true, true);
      if refs.Value(connection.name) == 0 {
        ok := connection.Transaction();
        answers := Answers(ok, true);
        if !ok {
          ok := connection.Transaction();
          answers := Answers(false, ok);
        }
      }
      if ok {
        refs.counts := refs.counts[connection.name := refs.Value(connection.name) + 1];
        t := new SqlTransaction.Armed(connection, refs);
      }
    }

    method Commit() returns (ok: bool, ghost answers: Answers)
      requires refs.Value(connection.name) > 0
      modifies this, connection, refs
      ensures var o := CommitOn(old(connection.db), old(refs.Value(connection.name)), answers);
        && ok == o.ok && connection.db == o.db
        && refs.counts == (if ok then old(refs.counts)[connection.name := o.count] else old(refs.counts))
        && disarmed == (ok || old(disarmed))
      ensures connection.requests
        == old(connection.requests) + if old(refs.Value(connection.name)) == 1 then Asked(Committing, answers) else []
    {
      ok, answers := true, Answers(true, true);
      if refs.Value(connection.name) == 1 {
        ok := connection.Commit();
        answers := Answers(ok, true);
        if !ok {
          ok := connection.Commit();
          answers := Answers(false, ok);
        }
      }
      if ok {
        refs.counts := refs.counts[connection.name := refs.Value(connection.name) - 1];
        disarmed := true;
      }
    }

    method Rollback() returns (ok: bool, ghost answers: Answers)
      requires refs.Value(connection.name) > 0
      modifies this, connection, refs
      ensures var o := RollbackOn(old(connection.db), old(refs.Value(connection.name)), answers);
        && ok == o.ok && connection.db == o.db
        && refs.counts == old(refs.counts)[connection.name := o.count] && disarmed
      ensures connection.requests
        == old(connection.requests) + if old(refs.Value(connection.name)) == 1 then Asked(RollingBack, answers) else []
    {
      refs.counts := refs.counts[connection.name := refs.Value(connection.name) - 1];
      disarmed := true;
      ok, answers := true, Answers(true, true);
      if refs.Value(connection.name) == 0 {
        ok := connection.Rollback();
        answers := Answers(ok, true);
        if !ok {
          ok := connection.Rollback();
          answers := Answers(false, ok);
        }
      }
    }

    method Destroy() returns (ghost answer: bool)
      modifies this, connection, refs
      ensures old(disarmed) ==> unchanged(connection) && unchanged(refs)
      ensures var o := DestroyOn(old(connection.db), old(refs.Value(connection.name)), answer);
        !old(disarmed) ==> connection.db == o.db && refs.counts == old(refs.counts)[connection.name := o.count]
      ensures disarmed == old(disarmed)
      ensures connection.requests == old(connection.requests)
        + if !old(disarmed) && old(refs.Value(connection.name)) == 1 then [Request(RollingBack, answer)] else []
    {
      answer := true;
      if disarmed {
        return;
      }
      if refs.Value(connection.name) == 1 {
        answer := connection.Rollback();
      }
      refs.counts := refs.counts[connection.name := refs.Value(connection.name) - 1];
    }
  }
}
