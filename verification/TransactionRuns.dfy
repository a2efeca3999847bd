/** Runs of any number of handles on any number of connections, without connection loss. */
module TransactionRuns {
  import opened Transactions

  datatype Handle = Handle(connection: string, armed: bool)

  datatype State = State(dbs: map<string, Db>, counts: map<string, int>, handles: map<nat, Handle>)

  datatype Event =
    | Start(id: nat, connection: string, answers: Answers)
    | Statement(on: string, write: Write)
    | Commit(id: nat, answers: Answers)
    | Rollback(id: nat, answers: Answers)
    | Destroy(id: nat, answer: bool)

  const INITIAL := State(map[], map[], map[])

  function DbOf(s: State, c: string): Db {
    if c in s.dbs then s.dbs[c] else Db(false, [], [])
  }

  function Count(s: State, c: string): int {
    CountOf(s.counts, c)
  }

  /** What the caller must respect: ids of new handles are new, other ids are live, and the asserted positive count. */
  predicate Enabled(s: State, e: Event) {
    match e
    case Start(id, _, _) => id !in s.handles
    case Statement(_, _) => true
    case Commit(id, _) => id in s.handles && Count(s, s.handles[id].connection) > 0
    case Rollback(id, _) => id in s.handles && Count(s, s.handles[id].connection) > 0
    case Destroy(id, _) => id in s.handles
  }

  function ConnectionOf(s: State, e: Event): string
    requires Enabled(s, e)
  {
    match e
    case Start(_, c, _) => c
    case Statement(c, _) => c
    case Commit(id, _) => s.handles[id].connection
    case Rollback(id, _) => s.handles[id].connection
    case Destroy(id, _) => s.handles[id].connection
  }

  function OutcomeOf(s: State, e: Event): Outcome
    requires Enabled(s, e)
  {
    var c := ConnectionOf(s, e);
    var db, n := DbOf(s, c), Count(s, c);
    match e
    case Start(_, _, a) => BeginOn(db, n, a)
    case Statement(_, w) => Outcome(DbWrite(db, w), n, true)
    case Commit(_, a) => CommitOn(db, n, a)
    case Rollback(_, a) => RollbackOn(db, n, a)
    case Destroy(id, answer) => if s.handles[id].armed then DestroyOn(db, n, answer) else Outcome(db, n, true)
  }

  function Step(s: State, e: Event): State
    requires Enabled(s, e)
  {
    var c, o := ConnectionOf(s, e), OutcomeOf(s, e);
    var dbs := s.dbs[c := o.db];
    var counts := if o.count == Count(s, c) then s.counts else s.counts[c := o.count];
    match e
    case Start(id, _, _) => State(dbs, counts, if o.ok then s.handles[id := Handle(c, true)] else s.handles)
    case Statement(_, _) => State(dbs, counts, s.handles)
    case Commit(id, _) => State(dbs, counts, if o.ok then s.handles[id := Handle(c, false)] else s.handles)
    case Rollback(id, _) => State(dbs, counts, s.handles[id := Handle(c, false)])
    case Destroy(id, _) => State(dbs, counts, s.handles - {id})
  }

  // ----- the count is the number of live armed handles -----

  function ArmedOn(s: State, c: string): set<nat> {
    set id | id in s.handles && s.handles[id] == Handle(c, true)
  }

  ghost predicate Counted(s: State) {
    forall c :: Count(s, c) == |ArmedOn(s, c)|
  }

  /** A commit or rollback on a handle that already gave its transaction up, and that goes through. */
  predicate GivesUpTwice(s: State, e: Event)
    requires Enabled(s, e)
  {
    match e
    case Commit(id, _) => !s.handles[id].armed && OutcomeOf(s, e).ok
    case Rollback(id, _) => !s.handles[id].armed
    case _ => false
  }

  lemma ArmedAfter(s: State, e: Event, c: string)
    requires Enabled(s, e)
    ensures var here := c == ConnectionOf(s, e);
      ArmedOn(Step(s, e), c) ==
        match e
        case Start(id, _, _) => if here && OutcomeOf(s, e).ok then ArmedOn(s, c) + {id} else ArmedOn(s, c)
        case Statement(_, _) => ArmedOn(s, c)
        case Commit(id, _) => if here && OutcomeOf(s, e).ok then ArmedOn(s, c) - {id} else ArmedOn(s, c)
        case Rollback(id, _) => if here then ArmedOn(s, c) - {id} else ArmedOn(s, c)
        case Destroy(id, _) => if here then ArmedOn(s, c) - {id} else ArmedOn(s, c)
  {
  }

  lemma CountedHere(s: State, e: Event)
    requires Enabled(s, e)
    requires Count(s, ConnectionOf(s, e)) == |ArmedOn(s, ConnectionOf(s, e))|
    ensures Count(Step(s, e), ConnectionOf(s, e)) == |ArmedOn(Step(s, e), ConnectionOf(s, e))| <==> !GivesUpTwice(s, e)
  {
    var c := ConnectionOf(s, e);
    ArmedAfter(s, e, c);
    assert Count(Step(s, e), c) == OutcomeOf(s, e).count;
  }

  /** A step keeps the count equal to the number of live armed handles, whatever the driver answers, exactly unless
      it gives a transaction up twice. */
  lemma CountedExact(s: State, e: Event)
    requires Enabled(s, e) && Counted(s)
    ensures Counted(Step(s, e)) <==> !GivesUpTwice(s, e)
  {
    CountedHere(s, e);
    forall d | d != ConnectionOf(s, e)
      ensures Count(Step(s, e), d) == |ArmedOn(Step(s, e), d)|
    {
      ArmedAfter(s, e, d);
      assert Count(Step(s, e), d) == Count(s, d);
    }
  }

  // ----- the driver is in a transaction exactly while the count is positive -----

  ghost predicate Synced(s: State) {
    forall c :: (DbOf(s, c).inTransaction <==> Count(s, c) > 0) && (!DbOf(s, c).inTransaction ==> DbOf(s, c).pending == [])
  }

  /** The last armed handle is rolled back or destroyed, and the driver refuses to roll back. */
  predicate FailedRollback(s: State, e: Event)
    requires Enabled(s, e)
  {
    match e
    case Rollback(_, a) => Count(s, ConnectionOf(s, e)) == 1 && a.Refused()
    case Destroy(id, answer) => s.handles[id].armed && Count(s, ConnectionOf(s, e)) == 1 && !answer
    case _ => false
  }

  lemma SyncedExact(s: State, e: Event)
    requires Enabled(s, e) && Counted(s) && Synced(s) && !GivesUpTwice(s, e)
    ensures Synced(Step(s, e)) <==> !FailedRollback(s, e)
  {
    var c := ConnectionOf(s, e);
    var t := Step(s, e);
    assert Count(s, c) == |ArmedOn(s, c)|;
    assert forall d :: d != c ==> DbOf(t, d) == DbOf(s, d) && Count(t, d) == Count(s, d);
    assert (DbOf(t, c).inTransaction <==> Count(t, c) > 0) && (!DbOf(t, c).inTransaction ==> DbOf(t, c).pending == [])
      <==> !FailedRollback(s, e) by {
      if e.Destroy? && s.handles[e.id].armed {
        assert e.id in ArmedOn(s, c);
      }
    }
  }

  // ----- runs -----

  ghost predicate Good(s: State) {
    Counted(s) && Synced(s)
  }

  /** Every event is one the caller may cause; the driver may answer anything. */
  predicate Allowed(s: State, es: seq<Event>)
    decreases |es|
  {
    es != [] ==> Enabled(s, es[0]) && Allowed(Step(s, es[0]), es[1..])
  }

  /** No event gives a transaction up twice. */
  predicate ProperRun(s: State, es: seq<Event>): (proper: bool)
    ensures proper ==> Allowed(s, es)
    decreases |es|
  {
    es != [] ==> Enabled(s, es[0]) && !GivesUpTwice(s, es[0]) && ProperRun(Step(s, es[0]), es[1..])
  }

  /** Every event is allowed, commit and rollback are called on armed handles only, and no rollback is refused. */
  predicate CleanRun(s: State, es: seq<Event>): (clean: bool)
    ensures clean ==> ProperRun(s, es)
    decreases |es|
  {
    es != [] ==>
      && Enabled(s, es[0]) && !GivesUpTwice(s, es[0]) && !FailedRollback(s, es[0])
      && CleanRun(Step(s, es[0]), es[1..])
  }

  function Run(s: State, es: seq<Event>): State
    requires Allowed(s, es)
    decreases |es|
  {
    if es == [] then s else Run(Step(s, es[0]), es[1..])
  }

  lemma {:induction false} RunGood(s: State, es: seq<Event>)
    requires Good(s) && CleanRun(s, es)
    ensures Good(Run(s, es))
    decreases |es|
  {
    if es != [] {
      CountedExact(s, es[0]);
      SyncedExact(s, es[0]);
      RunGood(Step(s, es[0]), es[1..]);
    }
  }

  lemma InitialGood()
    ensures Good(INITIAL) && Sound(INITIAL)
  {
    forall c
      ensures Count(INITIAL, c) == |ArmedOn(INITIAL, c)|
    {
      assert ArmedOn(INITIAL, c) == {};
    }
  }

  // ----- the count over any run -----

  /** How often a run gives a transaction of `c` up a second time. */
  function GivenUpTwice(s: State, es: seq<Event>, c: string): nat
    requires Allowed(s, es)
    decreases |es|
  {
    if es == [] then 0
    else
      (if GivesUpTwice(s, es[0]) && ConnectionOf(s, es[0]) == c then 1 else 0)
      + GivenUpTwice(Step(s, es[0]), es[1..], c)
  }

  lemma CountAfter(s: State, e: Event, c: string)
    requires Enabled(s, e)
    ensures Count(Step(s, e), c) == if ConnectionOf(s, e) == c then OutcomeOf(s, e).count else Count(s, c)
  {
    hide OutcomeOf;
  }

  /** What the event takes from or adds to the armed handles of its connection. */
  function ArmedChange(s: State, e: Event): int
    requires Enabled(s, e)
  {
    match e
    case Start(_, _, _) => if OutcomeOf(s, e).ok then 1 else 0
    case Statement(_, _) => 0
    case Commit(id, _) => if OutcomeOf(s, e).ok && s.handles[id].armed then -1 else 0
    case Rollback(id, _) => if s.handles[id].armed then -1 else 0
    case Destroy(id, _) => if s.handles[id].armed then -1 else 0
  }

  lemma ArmedSize(s: State, e: Event, c: string)
    requires Enabled(s, e)
    ensures |ArmedOn(Step(s, e), c)| == |ArmedOn(s, c)| + if ConnectionOf(s, e) == c then ArmedChange(s, e) else 0
  {
    hide Step, OutcomeOf;
    ArmedAfter(s, e, c);
  }

  lemma StepDrift(s: State, e: Event, c: string)
    requires Enabled(s, e)
    ensures Count(Step(s, e), c) - |ArmedOn(Step(s, e), c)|
      == Count(s, c) - |ArmedOn(s, c)| - if GivesUpTwice(s, e) && ConnectionOf(s, e) == c then 1 else 0
  {
    hide Step, ArmedOn, DbOf, DbBegin, DbCommit, DbRollback, DbWrite;
    CountAfter(s, e, c);
    ArmedSize(s, e, c);
  }

  /** Over any run, whatever the driver answers, the count of a connection falls behind its armed handles by one for
      each transaction given up twice, and by nothing else. */
  lemma {:induction false} RunDrift(s: State, es: seq<Event>, c: string)
    requires Allowed(s, es)
    ensures Count(Run(s, es), c) - |ArmedOn(Run(s, es), c)| == Count(s, c) - |ArmedOn(s, c)| - GivenUpTwice(s, es, c)
    decreases |es|
  {
    hide Step, Count, ArmedOn, Enabled, GivesUpTwice, ConnectionOf;
    if es != [] {
      StepDrift(s, es[0], c);
      RunDrift(Step(s, es[0]), es[1..], c);
    }
  }

  ghost predicate NeverTwice(s: State, es: seq<Event>)
    requires Allowed(s, es)
  {
    forall c :: GivenUpTwice(s, es, c) == 0
  }

  lemma TwiceStep(s: State, es: seq<Event>)
    requires es != [] && Allowed(s, es)
    ensures NeverTwice(s, es) <==> !GivesUpTwice(s, es[0]) && NeverTwice(Step(s, es[0]), es[1..])
  {
    hide Step;
    var next := Step(s, es[0]);
    if GivesUpTwice(s, es[0]) {
      assert GivenUpTwice(s, es, ConnectionOf(s, es[0])) != 0;
    } else {
      assert forall c :: GivenUpTwice(s, es, c) == GivenUpTwice(next, es[1..], c);
    }
  }

  lemma {:induction false} ProperExact(s: State, es: seq<Event>)
    requires Allowed(s, es)
    ensures ProperRun(s, es) <==> NeverTwice(s, es)
    decreases |es|
  {
    if es != [] {
      hide Step, NeverTwice;
      ProperExact(Step(s, es[0]), es[1..]);
      TwiceStep(s, es);
    }
  }

  /** After any run, refused requests included, every count is the number of armed handles exactly if no event gave a
      transaction up twice. */
  lemma CountedRunExact(es: seq<Event>)
    requires Allowed(INITIAL, es)
    ensures Counted(Run(INITIAL, es)) <==> ProperRun(INITIAL, es)
  {
    hide Step, Enabled, ProperRun, GivenUpTwice;
    ProperExact(INITIAL, es);
    InitialGood();
    if ProperRun(INITIAL, es) {
      forall c
        ensures Count(Run(INITIAL, es), c) == |ArmedOn(Run(INITIAL, es), c)|
      {
        RunDrift(INITIAL, es, c);
        assert Count(INITIAL, c) == |ArmedOn(INITIAL, c)|;
      }
    } else {
      var c :| GivenUpTwice(INITIAL, es, c) != 0;
      RunDrift(INITIAL, es, c);
      assert Count(INITIAL, c) == |ArmedOn(INITIAL, c)|;
      assert Count(Run(INITIAL, es), c) != |ArmedOn(Run(INITIAL, es), c)|;
    }
  }

  /** The first of two handles commits twice: the second commit is the driver's, while the other handle is armed. */
  lemma CommittedTwice(c: string, w: Write)
    ensures
      var yes := Answers(true, true);
      var s1 := Step(INITIAL, Start(0, c, yes));
      var s2 := Step(s1, Start(1, c, yes));
      var s3 := Step(s2, Statement(c, w));
      var s4 := Step(s3, Commit(0, yes));
      var s5 := Step(s4, Commit(0, yes));
      && Enabled(s3, Commit(0, yes)) && Enabled(s4, Commit(0, yes)) && GivesUpTwice(s4, Commit(0, yes))
      && DbOf(s5, c) == Db(false, [w], []) && Count(s5, c) == 0 && 1 in ArmedOn(s5, c)
  {
  }

  // ----- groups -----

  function WritesOn(es: seq<Event>, c: string): seq<Write> {
    if es == [] then []
    else (if es[0].Statement? && es[0].on == c then [es[0].write] else []) + WritesOn(es[1..], c)
  }

  /** Some handle on `c` stays armed from the start of the run to its end. */
  predicate OpenThroughout(s: State, es: seq<Event>, c: string)
    requires CleanRun(s, es)
    decreases |es|
  {
    Count(s, c) > 0 && (es != [] ==> OpenThroughout(Step(s, es[0]), es[1..], c))
  }

  /** While some handle is armed nothing becomes durable and every write is kept. */
  lemma {:induction false} OpenRun(s: State, es: seq<Event>, c: string)
    requires Good(s) && CleanRun(s, es) && OpenThroughout(s, es, c)
    ensures var db := DbOf(Run(s, es), c);
      && db.inTransaction && db.durable == DbOf(s, c).durable
      && db.pending == DbOf(s, c).pending + WritesOn(es, c)
    decreases |es|
  {
    hide Step, Good, DbOf, Count, Enabled, FailedRollback, GivesUpTwice, WritesOn;
    NoWrites(DbOf(s, c).pending, c);
    OpenMeans(s, c);
    if es != [] {
      FirstIsClean(s, es);
      OpenAtStart(Step(s, es[0]), es[1..], c);
      OpenStep(s, es[0], c);
      WritesStep(DbOf(s, c).pending, es, c);
      OpenRun(Step(s, es[0]), es[1..], c);
    }
  }

  lemma WritesStep(pending: seq<Write>, es: seq<Event>, c: string)
    requires es != []
    ensures pending + (if es[0].Statement? && es[0].on == c then [es[0].write] else []) + WritesOn(es[1..], c)
         == pending + WritesOn(es, c)
  {
  }

  lemma NoWrites(pending: seq<Write>, c: string)
    ensures pending + WritesOn([], c) == pending
  {
  }

  lemma OpenMeans(s: State, c: string)
    requires Good(s) && Count(s, c) > 0
    ensures DbOf(s, c).inTransaction
  {
  }

  lemma FirstIsClean(s: State, es: seq<Event>)
    requires es != [] && CleanRun(s, es)
    ensures CleanRun(s, [es[0]])
  {
    hide Step, FailedRollback, GivesUpTwice;
    assert [es[0]][1..] == [];
  }

  lemma OpenStep(s: State, e: Event, c: string)
    requires Good(s) && CleanRun(s, [e]) && Count(s, c) > 0 && Count(Step(s, e), c) > 0
    ensures Good(Step(s, e))
    ensures DbOf(Step(s, e), c) == DbOf(s, c).(pending :=
      DbOf(s, c).pending + if e.Statement? && e.on == c then [e.write] else [])
  {
    CountedExact(s, e);
    SyncedExact(s, e);
    assert DbOf(s, c).inTransaction && DbOf(Step(s, e), c).inTransaction;
  }

  lemma GroupOpens(s: State, e: Event, c: string)
    requires Good(s) && CleanRun(s, [e]) && Count(s, c) == 0 && Count(Step(s, e), c) > 0
    ensures Good(Step(s, e)) && DbOf(Step(s, e), c) == Db(true, DbOf(s, c).durable, [])
  {
    CountedExact(s, e);
    SyncedExact(s, e);
    assert !DbOf(s, c).inTransaction;
  }

  lemma GroupCloses(s: State, e: Event, c: string)
    requires Good(s) && CleanRun(s, [e]) && Count(s, c) > 0 && Count(Step(s, e), c) == 0
    ensures DbOf(Step(s, e), c)
      == Db(false, DbOf(s, c).durable + (if e.Commit? then DbOf(s, c).pending else []), [])
  {
    CountedExact(s, e);
    SyncedExact(s, e);
    assert DbOf(s, c).inTransaction;
    assert Count(s, c) == 1;
  }

  /** From the handle that opens a group to the event that gives up its last armed handle: nothing is durable before
      that event, and then all writes of the group are, or none, as that event is a commit or not. */
  lemma GroupAtomicity(s: State, first: Event, inner: seq<Event>, last: Event, c: string)
    requires Good(s) && Count(s, c) == 0
    requires CleanRun(s, [first]) && CleanRun(Step(s, first), inner) && OpenThroughout(Step(s, first), inner, c)
    requires CleanRun(Run(Step(s, first), inner), [last])
    requires Count(Step(Run(Step(s, first), inner), last), c) == 0
    ensures var open := Run(Step(s, first), inner);
      var done := DbOf(Step(open, last), c);
      && DbOf(open, c).durable == DbOf(s, c).durable
      && done.durable == DbOf(s, c).durable + (if last.Commit? then WritesOn(inner, c) else [])
      && !done.inTransaction && done.pending == []
  {
    hide Good, Count, DbOf, Step, Run, WritesOn;
    var begun := Step(s, first);
    var open := Run(begun, inner);
    OpenAtStart(begun, inner, c);
    GroupOpens(s, first, c);
    OpenRun(begun, inner, c);
    RunGood(begun, inner);
    OpenAtEnd(begun, inner, c);
    GroupCloses(open, last, c);
  }

  lemma OpenAtStart(s: State, es: seq<Event>, c: string)
    requires CleanRun(s, es) && OpenThroughout(s, es, c)
    ensures Count(s, c) > 0
  {
  }

  lemma {:induction false} OpenAtEnd(s: State, es: seq<Event>, c: string)
    requires CleanRun(s, es) && OpenThroughout(s, es, c)
    ensures Count(Run(s, es), c) > 0
    decreases |es|
  {
    if es != [] {
      OpenAtEnd(Step(s, es[0]), es[1..], c);
    }
  }

  // ----- what a group's writes come to, in any run -----

  /** The driver is in a transaction on `c` from the start of the run to its end. */
  predicate InTransaction(s: State, es: seq<Event>, c: string)
    requires Allowed(s, es)
    decreases |es|
  {
    DbOf(s, c).inTransaction && (es != [] ==> InTransaction(Step(s, es[0]), es[1..], c))
  }

  lemma StaysInTransaction(s: State, e: Event, c: string)
    requires Enabled(s, e) && DbOf(s, c).inTransaction
    ensures var db, next := DbOf(s, c), DbOf(Step(s, e), c);
      if next.inTransaction
      then next == db.(pending := db.pending + if e.Statement? && e.on == c then [e.write] else [])
      else next == Db(false, db.durable + (if e.Commit? then db.pending else []), [])
  {
  }

  lemma InTransactionAtStart(s: State, es: seq<Event>, c: string)
    requires Allowed(s, es) && InTransaction(s, es, c)
    ensures DbOf(s, c).inTransaction
  {
  }

  lemma {:induction false} PendingRun(s: State, es: seq<Event>, c: string)
    requires Allowed(s, es) && InTransaction(s, es, c)
    ensures DbOf(Run(s, es), c) == DbOf(s, c).(pending := DbOf(s, c).pending + WritesOn(es, c))
    ensures DbOf(Run(s, es), c).inTransaction
    decreases |es|
  {
    hide Step, DbOf, Enabled, WritesOn;
    NoWrites(DbOf(s, c).pending, c);
    if es != [] {
      InTransactionAtStart(Step(s, es[0]), es[1..], c);
      StaysInTransaction(s, es[0], c);
      WritesStep(DbOf(s, c).pending, es, c);
      PendingRun(Step(s, es[0]), es[1..], c);
    }
  }

  /** In any run, with refused rollbacks and handles given up twice, what is pending in the driver's transaction and
      what joins it becomes durable together or not at all, as the event that ends that transaction is a commit or not.
      So the writes a refused rollback leaves behind follow the decision of the next group that the driver ends. */
  lemma EndingDecides(s: State, es: seq<Event>, last: Event, c: string)
    requires Allowed(s, es) && InTransaction(s, es, c) && Enabled(Run(s, es), last)
    requires !DbOf(Step(Run(s, es), last), c).inTransaction
    ensures DbOf(Run(s, es), c).durable == DbOf(s, c).durable
    ensures DbOf(Step(Run(s, es), last), c)
      == Db(false, DbOf(s, c).durable + (if last.Commit? then DbOf(s, c).pending + WritesOn(es, c) else []), [])
  {
    hide Step, DbOf, Enabled, WritesOn, Run;
    PendingRun(s, es, c);
    StaysInTransaction(Run(s, es), last, c);
  }

  // ----- the whole run -----

  /** What a connection should hold, told by its armed handles: no counts, no driver. A group is open from its first
      handle on, until a request to end it is granted; after a refused rollback it stays open without a handle. */
  datatype Ledger = Ledger(armed: set<nat>, open: bool, durable: seq<Write>, group: seq<Write>)

  function GiveUp(l: Ledger, id: nat, save: bool, granted: bool): Ledger {
    if id !in l.armed then l
    else if l.armed != {id} then l.(armed := l.armed - {id})
    else if !granted then l.(armed := {})
    else Ledger({}, false, l.durable + (if save then l.group else []), [])
  }

  /** The first handle opens a group, writes join it, and the one that leaves last decides: only a commit saves it. */
  function Enter(l: Ledger, e: Event, c: string): Ledger {
    match e
    case Start(id, on, a) =>
      if on != c || (l.armed == {} && a.Refused()) then l else l.(armed := l.armed + {id}, open := true)
    case Statement(on, w) =>
      if on != c then l
      else if l.open then l.(group := l.group + [w]) else l.(durable := l.durable + [w])
    case Commit(id, a) => if l.armed == {id} && a.Refused() then l else GiveUp(l, id, true, true)
    case Rollback(id, a) => GiveUp(l, id, false, !a.Refused())
    case Destroy(id, answer) => GiveUp(l, id, false, answer)
  }

  function Entered(l: Ledger, es: seq<Event>, c: string): Ledger
    decreases |es|
  {
    if es == [] then l else Entered(Enter(l, es[0], c), es[1..], c)
  }

  function LedgerOf(s: State, c: string): Ledger {
    Ledger(ArmedOn(s, c), DbOf(s, c).inTransaction, DbOf(s, c).durable, DbOf(s, c).pending)
  }

  /** The counts are right, a positive one means a driver transaction, and nothing is pending without one. */
  ghost predicate Sound(s: State) {
    && Counted(s)
    && forall c :: (Count(s, c) > 0 ==> DbOf(s, c).inTransaction) && (!DbOf(s, c).inTransaction ==> DbOf(s, c).pending == [])
  }

  lemma StepSound(s: State, e: Event)
    requires Sound(s) && ProperRun(s, [e])
    ensures Sound(Step(s, e))
  {
    var c, t := ConnectionOf(s, e), Step(s, e);
    CountedExact(s, e);
    assert Count(s, c) == |ArmedOn(s, c)|;
    assert forall d :: d != c ==> DbOf(t, d) == DbOf(s, d) && Count(t, d) == Count(s, d);
    if e.Destroy? && s.handles[e.id].armed {
      CountAndArmed(s, e.id, c);
    }
  }

  lemma CountAndArmed(s: State, id: nat, c: string)
    requires Counted(s) && id in ArmedOn(s, c)
    ensures Count(s, c) == 1 <==> ArmedOn(s, c) == {id}
    ensures Count(s, c) > 0
  {
    var rest := ArmedOn(s, c) - {id};
    assert ArmedOn(s, c) == rest + {id};
    assert Count(s, c) == |rest| + 1;
  }

  lemma StepEnters(s: State, e: Event, c: string)
    requires Sound(s) && ProperRun(s, [e])
    ensures LedgerOf(Step(s, e), c) == Enter(LedgerOf(s, c), e, c)
  {
    ArmedAfter(s, e, c);
    assert Count(s, c) == |ArmedOn(s, c)|;
    assert Count(s, c) == 0 <==> ArmedOn(s, c) == {};
    assert Count(s, c) > 0 ==> DbOf(s, c).inTransaction;
    if e.Commit? || e.Rollback? || e.Destroy? {
      if e.id in ArmedOn(s, c) {
        CountAndArmed(s, e.id, c);
      }
    }
  }

  lemma FirstIsProper(s: State, es: seq<Event>)
    requires es != [] && ProperRun(s, es)
    ensures ProperRun(s, [es[0]])
  {
    hide Step, GivesUpTwice;
    assert [es[0]][1..] == [];
  }

  /** Counting handles and asking the driver only for the first and the last one does, on every connection and over
      every run that gives no transaction up twice, whatever the driver answers, what the ledger says. */
  lemma {:induction false} RunIsLedger(s: State, es: seq<Event>, c: string)
    requires Sound(s) && ProperRun(s, es)
    ensures LedgerOf(Run(s, es), c) == Entered(LedgerOf(s, c), es, c) && Sound(Run(s, es))
    decreases |es|
  {
    hide Step, Sound, LedgerOf, Enter, Enabled, GivesUpTwice;
    if es != [] {
      FirstIsProper(s, es);
      StepEnters(s, es[0], c);
      StepSound(s, es[0]);
      RunIsLedger(Step(s, es[0]), es[1..], c);
    }
  }

  // ----- what a refused rollback does -----

  /** After a refused rollback the group's writes are still pending, and the commit of the next group saves them. */
  lemma RefusedRollbackLeaks(c: string, w: Write)
    ensures
      var no, yes := Answers(false, false), Answers(true, true);
      var s1 := Step(INITIAL, Start(0, c, yes));
      var s2 := Step(s1, Statement(c, w));
      var s3 := Step(s2, Rollback(0, no));
      var s4 := Step(s3, Start(1, c, yes));
      Count(s3, c) == 0 && DbOf(Step(s4, Commit(1, yes)), c).durable == [w]
  {
  }

  // ----- the number of transactions -----

  /** The connections on which some handle's transaction was started during a run. */
  function StartedBy(s: State, es: seq<Event>): set<string>
    requires Allowed(s, es)
    decreases |es|
  {
    if es == [] then {}
    else (if es[0].Start? && OutcomeOf(s, es[0]).ok then {es[0].connection} else {}) + StartedBy(Step(s, es[0]), es[1..])
  }

  /** The connections on which some handle is armed. */
  function OpenConnections(s: State): set<string> {
    set id | id in s.handles && s.handles[id].armed :: s.handles[id].connection
  }

  lemma CountedKey(s: State, c: string)
    requires Count(s, c) > 0
    ensures c in s.counts
  {
  }

  lemma StepKeys(s: State, e: Event)
    requires Sound(s) && ProperRun(s, [e])
    ensures Step(s, e).counts.Keys
      == s.counts.Keys + if e.Start? && OutcomeOf(s, e).ok then {e.connection} else {}
  {
    var c := ConnectionOf(s, e);
    if e.Destroy? && s.handles[e.id].armed {
      assert e.id in ArmedOn(s, c);
      CountAndArmed(s, e.id, c);
    }
    ChangedKeys(s, e);
  }

  lemma ChangedKeys(s: State, e: Event)
    requires Enabled(s, e) && (e.Destroy? && s.handles[e.id].armed ==> Count(s, ConnectionOf(s, e)) > 0)
    ensures Step(s, e).counts.Keys
      == s.counts.Keys + if e.Start? && OutcomeOf(s, e).ok then {e.connection} else {}
  {
    hide DbOf, DbBegin, DbCommit, DbRollback, DbWrite, Sound;
    if Count(s, ConnectionOf(s, e)) > 0 {
      CountedKey(s, ConnectionOf(s, e));
    }
  }

  lemma {:induction false} RunKeys(s: State, es: seq<Event>)
    requires Sound(s) && ProperRun(s, es)
    ensures Run(s, es).counts.Keys == s.counts.Keys + StartedBy(s, es)
    decreases |es|
  {
    hide Step, Sound, Enabled, GivesUpTwice, OutcomeOf;
    if es != [] {
      FirstIsProper(s, es);
      StepKeys(s, es[0]);
      StepSound(s, es[0]);
      RunKeys(Step(s, es[0]), es[1..]);
    }
  }

  /** After any run that gives no transaction up twice the size of the table is the number of connections with a transaction of some handle exactly
      if every connection that ever had one has one now: entries are never removed. */
  lemma TransactionsCountExact(es: seq<Event>)
    requires ProperRun(INITIAL, es)
    ensures var s := Run(INITIAL, es);
      |s.counts| == |OpenConnections(s)| <==> forall c <- StartedBy(INITIAL, es) :: c in OpenConnections(s)
  {
    hide Step, Enabled, GivesUpTwice, StartedBy, Synced, LedgerOf;
    var s := Run(INITIAL, es);
    InitialGood();
    RunIsLedger(INITIAL, es, "");
    RunKeys(INITIAL, es);
    var started, open := StartedBy(INITIAL, es), OpenConnections(s);
    assert s.counts.Keys == started;
    forall c <- open
      ensures c in started
    {
      var id :| id in s.handles && s.handles[id] == Handle(c, true);
      CountAndArmed(s, id, c);
    }
    assert |s.counts| == |s.counts.Keys|;
    if c :| c in started && c !in open {
      SubsetSize(open, started - {c});
    } else {
      assert open == started;
    }
  }

  /** One transaction started and committed: the table still counts it. */
  lemma CountStaysUp(c: string)
    ensures var es := [Start(0, c, Answers(true, true)), Commit(0, Answers(true, true))];
      && ProperRun(INITIAL, es)
      && |Run(INITIAL, es).counts| == 1 && OpenConnections(Run(INITIAL, es)) == {}
  {
    var es := [Start(0, c, Answers(true, true)), Commit(0, Answers(true, true))];
    assert es[1..] == [es[1]] && es[1..][1..] == [];
    var s := Step(INITIAL, es[0]);
    assert ProperRun(Step(s, es[1]), []);
    assert ProperRun(s, [es[1]]);
    assert Run(s, [es[1]]) == Step(s, es[1]);
    assert Step(s, es[1]).counts == map[c := 0];
  }

  lemma SubsetSize<T>(a: set<T>, b: set<T>)
    requires a <= b
    ensures |a| <= |b|
  {
    assert b == a + (b - a);
  }
}
