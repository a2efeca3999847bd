/** The schema updater: a migration that can fail anywhere and be run again. */
module Migration {
  import opened QtText
  import opened QueryCache
  import opened SchemaSync
  import opened Scripts
  import opened Transactions

  /** The update directory: the text of the script of each version that has one. */
  type Files = map<int, string>

  // ----- what a migration is meant to leave behind -----

  /** The version the database stores: what the last committed version update set, -1 if there is none. */
  function Stored(durable: seq<Write>): int {
    if durable == [] then -1
    else
      var last := durable[|durable| - 1];
      if last.VersionUpdate? then last.version else Stored(durable[..|durable| - 1])
  }

  /** The statements of a script: its parts without comments, the empty ones left out. */
  function Statements(parts: seq<string>): seq<Write> {
    if parts == [] then []
    else
      var s := StripComments(parts[0]);
      (if s == "" then [] else [Sql(s)]) + Statements(parts[1..])
  }

  function Script(files: Files, k: int): seq<Write>
    requires k in files
  {
    Statements(SplitQueries(files[k])) + [VersionUpdate(k)]
  }

  /** The scripts of the existing files in (lo, hi] in ascending order, each with its version update. */
  function Log(files: Files, lo: int, hi: int): seq<Write>
    decreases hi - lo
  {
    if hi <= lo then []
    else Log(files, lo, hi - 1) + (if hi in files then Script(files, hi) else [])
  }

  /** The last version in (lo, hi] that has a script, `lo` if there is none. */
  function LastScript(files: Files, lo: int, hi: int): int
    decreases hi - lo
  {
    if hi <= lo then lo else if hi in files then hi else LastScript(files, lo, hi - 1)
  }

  /** What completes a migration when the target has no script of its own. */
  function Completion(files: Files, lo: int, target: int): seq<Write> {
    if LastScript(files, lo, target) < target then [VersionUpdate(target)] else []
  }

  /** How a run ends. All but `UpToDate`, `Declined` and `Updated` end the application. */
  datatype Result =
    | VersionUnread | UpToDate | Declined | TablesFailed | ColumnsFailed
    | ScriptFailed(version: int) | RulesFailed | VersionFailed | Updated

  /** What the environment grants a run: the version is read, the user agrees, the statements of each step succeed.
      What a run never asks for counts as granted. Each field sums up the driver's answers to the requests of its
      step, which fails exactly if one of them is refused (a start or a commit: twice). */
  datatype Granted = Granted(
    read: bool, apply: bool, tables: bool, columns: bool, scripts: bool, rules: bool, version: bool)

  /** Everything a run needs from a stored version below the target on. */
  predicate FullyGranted(g: Granted, files: Files, stored: int, target: int) {
    g.tables && g.columns && g.scripts && g.rules && (LastScript(files, stored, target) < target ==> g.version)
  }

  /** What one run does to the committed writes. */
  predicate RunEffect(files: Files, target: int, before: seq<Write>, after: seq<Write>, r: Result) {
    var v := Stored(before);
    match r
    case VersionUnread => after == before
    case UpToDate => v >= target && after == before
    case ScriptFailed(k) => v < k <= target && k in files && after == before + Log(files, v, k - 1)
    case RulesFailed => v < target && after == before + Log(files, v, target)
    case VersionFailed => LastScript(files, v, target) < target && after == before + Log(files, v, target)
    case Updated => v < target && after == before + Log(files, v, target) + Completion(files, v, target)
    case _ => v < target && after == before
  }

  // ----- laws -----

  lemma AppendAssociative(a: seq<Write>, b: seq<Write>, c: seq<Write>)
    ensures a + b + c == a + (b + c)
  {
  }

  lemma StoredSnoc(durable: seq<Write>, w: Write)
    ensures Stored(durable + [w]) == if w.VersionUpdate? then w.version else Stored(durable)
  {
    assert (durable + [w])[..|durable|] == durable;
  }

  lemma StoredAfterScript(durable: seq<Write>, files: Files, k: int)
    requires k in files
    ensures Stored(durable + Script(files, k)) == k
  {
    var statements := Statements(SplitQueries(files[k]));
    assert durable + Script(files, k) == (durable + statements) + [VersionUpdate(k)];
    StoredSnoc(durable + statements, VersionUpdate(k));
  }

  lemma {:induction false} StoredAfterLog(durable: seq<Write>, files: Files, hi: int)
    ensures Stored(durable + Log(files, Stored(durable), hi)) == LastScript(files, Stored(durable), hi)
    decreases hi - Stored(durable)
  {
    var v := Stored(durable);
    if hi <= v {
      assert durable + [] == durable;
    } else {
      hide Stored, Script;
      StoredAfterLog(durable, files, hi - 1);
      var most := Log(files, v, hi - 1);
      if hi in files {
        AppendAssociative(durable, most, Script(files, hi));
        StoredAfterScript(durable + most, files, hi);
      } else {
        assert most + [] == most;
      }
    }
  }

  lemma {:induction false} LastScriptBounds(files: Files, lo: int, hi: int)
    ensures lo <= hi ==> lo <= LastScript(files, lo, hi) <= hi
    ensures hi < lo ==> LastScript(files, lo, hi) == lo
    decreases hi - lo
  {
    if hi > lo {
      LastScriptBounds(files, lo, hi - 1);
    }
  }

  /** A migration picked up at the last committed script does exactly what is left. */
  lemma {:induction false} LogResumes(files: Files, lo: int, mid: int, hi: int)
    requires lo <= mid <= hi
    ensures var resumed := LastScript(files, lo, mid);
      && Log(files, lo, hi) == Log(files, lo, mid) + Log(files, resumed, hi)
      && LastScript(files, lo, hi) == LastScript(files, resumed, hi)
    decreases hi - lo, hi - mid
  {
    hide Log, LastScript, Script;
    var resumed := LastScript(files, lo, mid);
    LastScriptBounds(files, lo, mid);
    if mid == hi {
      LastScriptIsLast(files, lo, mid);
      NoScripts(files, resumed, hi);
      assert Log(files, lo, mid) + [] == Log(files, lo, mid);
    } else {
      LogResumes(files, lo, mid, hi - 1);
      LogNext(files, lo, hi);
      LogNext(files, resumed, hi);
      AppendAssociative(Log(files, lo, mid), Log(files, resumed, hi - 1), if hi in files then Script(files, hi) else []);
    }
  }

  lemma LogNext(files: Files, lo: int, hi: int)
    requires lo < hi
    ensures Log(files, lo, hi) == Log(files, lo, hi - 1) + (if hi in files then Script(files, hi) else [])
    ensures LastScript(files, lo, hi) == if hi in files then hi else LastScript(files, lo, hi - 1)
  {
  }

  lemma {:induction false} LastScriptIsLast(files: Files, lo: int, hi: int)
    ensures forall k :: LastScript(files, lo, hi) < k <= hi ==> k !in files
    decreases hi - lo
  {
    if lo < hi && hi !in files {
      LastScriptIsLast(files, lo, hi - 1);
    }
  }

  lemma {:induction false} NoScripts(files: Files, lo: int, hi: int)
    requires forall k :: lo < k <= hi ==> k !in files
    ensures Log(files, lo, hi) == [] && LastScript(files, lo, hi) == lo
    decreases hi - lo
  {
    if lo < hi {
      NoScripts(files, lo, hi - 1);
    }
  }

  // ----- runs -----

  lemma LogResumesFully(durable: seq<Write>, files: Files, mid: int, target: int)
    requires Stored(durable) <= mid <= target
    ensures var v := Stored(durable);
      var after := durable + Log(files, v, mid);
      && Stored(after) == LastScript(files, v, mid)
      && after + Log(files, Stored(after), target) + Completion(files, Stored(after), target)
         == durable + Log(files, v, target) + Completion(files, v, target)
  {
    var v := Stored(durable);
    StoredAfterLog(durable, files, mid);
    LogResumes(files, v, mid, target);
    assert durable + (Log(files, v, mid) + Log(files, LastScript(files, v, mid), target))
        == durable + Log(files, v, mid) + Log(files, LastScript(files, v, mid), target);
  }

  /** Where a run that did not complete leaves the version, and that what is left to do is what it did not do. */
  lemma FailedRunResumes(files: Files, target: int, before: seq<Write>, after: seq<Write>, r: Result)
    requires RunEffect(files, target, before, after, r) && r != Updated
    ensures
      var v := Stored(before);
      Stored(after) ==
        match r
        case ScriptFailed(k) => LastScript(files, v, k - 1)
        case RulesFailed => LastScript(files, v, target)
        case VersionFailed => LastScript(files, v, target)
        case _ => v
    ensures after + Log(files, Stored(after), target) + Completion(files, Stored(after), target)
         == before + Log(files, Stored(before), target) + Completion(files, Stored(before), target)
  {
    var v := Stored(before);
    LastScriptBounds(files, v, target);
    match r
    case ScriptFailed(k) => LogResumesFully(before, files, k - 1, target);
    case RulesFailed => LogResumesFully(before, files, target, target);
    case VersionFailed => LogResumesFully(before, files, target, target);
    case _ =>
  }

  /** A run that fails at the rules is followed by one that creates them, sooner or later, exactly if the target has no
      script of its own. With one, the version already is the target: every later run does nothing. */
  lemma RulesRetriedExact(files: Files, target: int, before: seq<Write>, after: seq<Write>)
    requires RunEffect(files, target, before, after, RulesFailed)
    ensures (exists later :: RunEffect(files, target, after, later, Updated)) <==> target !in files
    ensures target in files ==>
      forall later, r :: RunEffect(files, target, after, later, r) ==> (r == UpToDate || r == VersionUnread) && later == after
  {
    var v := Stored(before);
    FailedRunResumes(files, target, before, after, RulesFailed);
    LastScriptBounds(files, v, target);
    assert LastScript(files, v, target) == target <==> target in files by {
      LastScriptBounds(files, v, target - 1);
    }
    if target !in files {
      var w := Stored(after);
      assert RunEffect(files, target, after, after + Log(files, w, target) + Completion(files, w, target), Updated);
    }
  }

  /** A database at version 0, a script for the target 1, and rules that fail: version 1 is stored without its rules,
      and stays so. */
  lemma RulesNeverCreated(script: string)
    ensures
      var files, before := map[1 := script], [VersionUpdate(0)];
      var after := before + Script(files, 1);
      && RunEffect(files, 1, before, after, RulesFailed) && Stored(after) == 1
      && forall later, r :: RunEffect(files, 1, after, later, r) ==> (r == UpToDate || r == VersionUnread) && later == after
  {
    var files, before := map[1 := script], [VersionUpdate(0)];
    var after := before + Script(files, 1);
    assert Stored(before) == 0;
    assert Log(files, 0, 0) == [] && [] + Script(files, 1) == Script(files, 1);
    assert Log(files, 0, 1) == Script(files, 1);
    StoredAfterScript(before, files, 1);
    RulesRetriedExact(files, 1, before, after);
  }

  lemma UpdatedStored(files: Files, target: int, before: seq<Write>, after: seq<Write>)
    requires RunEffect(files, target, before, after, Updated)
    ensures Stored(after) == target
  {
    var v := Stored(before);
    var logged := before + Log(files, v, target);
    StoredAfterLog(before, files, target);
    LastScriptBounds(files, v, target);
    if Completion(files, v, target) != [] {
      StoredSnoc(logged, VersionUpdate(target));
    } else {
      assert logged + [] == logged;
    }
  }

  /** The committed writes before and after each of a sequence of runs with the same files and target. */
  ghost predicate Runs(files: Files, target: int, states: seq<seq<Write>>, results: seq<Result>) {
    && |states| == |results| + 1
    && forall i :: 0 <= i < |results| ==> RunEffect(files, target, states[i], states[i + 1], results[i])
  }

  /** Any number of runs that fail anywhere, and then one that succeeds, commit exactly what one undisturbed run
      would have: each script in (start, target] once, in ascending order, and the target version. */
  lemma {:induction false} ResumableMigration(files: Files, target: int, states: seq<seq<Write>>, results: seq<Result>)
    requires Runs(files, target, states, results)
    requires results != [] && results[|results| - 1] == Updated
    requires forall i :: 0 <= i < |results| - 1 ==> results[i] != Updated
    ensures
      var first, last := states[0], states[|states| - 1];
      && last == first + Log(files, Stored(first), target) + Completion(files, Stored(first), target)
      && Stored(last) == target
    decreases |results|
  {
    if |results| == 1 {
      UpdatedStored(files, target, states[0], states[1]);
    } else {
      FailedRunResumes(files, target, states[0], states[1], results[0]);
      var states', results' := states[1..], results[1..];
      forall i | 0 <= i < |results'|
        ensures RunEffect(files, target, states'[i], states'[i + 1], results'[i])
      {
        assert RunEffect(files, target, states[i + 1], states[i + 1 + 1], results[i + 1]);
      }
      ResumableMigration(files, target, states', results');
    }
  }

  // ----- the updater -----

  function Pending(files: Files, lo: int, hi: int): seq<int>
    decreases hi - lo
  {
    if hi <= lo then [] else Pending(files, lo, hi - 1) + (if hi in files then [hi] else [])
  }

  /** The i-th pending version has a script, and what is logged before it is logged before its version. */
  lemma {:induction false} PendingAt(files: Files, lo: int, hi: int, i: nat)
    requires i < |Pending(files, lo, hi)|
    ensures var k := Pending(files, lo, hi)[i]; lo < k <= hi && k in files
    ensures Pending(files, lo, Pending(files, lo, hi)[i] - 1) == Pending(files, lo, hi)[..i]
    decreases hi - lo
  {
    var most := Pending(files, lo, hi - 1);
    if i < |most| {
      PendingAt(files, lo, hi - 1, i);
      assert Pending(files, lo, hi)[..i] == most[..i];
    } else {
      assert Pending(files, lo, hi)[..i] == most;
    }
  }

  function LogOf(files: Files, versions: seq<int>): seq<Write>
    requires forall k <- versions :: k in files
  {
    if versions == [] then []
    else LogOf(files, versions[..|versions| - 1]) + Script(files, versions[|versions| - 1])
  }

  lemma {:induction false} PendingLog(files: Files, lo: int, hi: int)
    ensures forall k <- Pending(files, lo, hi) :: k in files
    ensures LogOf(files, Pending(files, lo, hi)) == Log(files, lo, hi)
    ensures LastScript(files, lo, hi) == if Pending(files, lo, hi) == [] then lo else Pending(files, lo, hi)[|Pending(files, lo, hi)| - 1]
    decreases hi - lo
  {
    hide Script;
    if lo < hi {
      PendingLog(files, lo, hi - 1);
      var p := Pending(files, lo, hi);
      if hi in files {
        assert p[..|p| - 1] == Pending(files, lo, hi - 1);
      } else {
        assert p == Pending(files, lo, hi - 1);
      }
    }
  }

  lemma NothingLogged(files: Files, before: seq<Write>)
    ensures before + LogOf(files, []) == before
  {
  }

  lemma LogOfSnoc(files: Files, versions: seq<int>, i: nat, before: seq<Write>)
    requires i < |versions| && forall k <- versions :: k in files
    ensures before + LogOf(files, versions[..i + 1]) == before + LogOf(files, versions[..i]) + Script(files, versions[i])
  {
    assert versions[..i + 1][..i] == versions[..i];
  }

  lemma NothingDone(files: Files, target: int, durable: seq<Write>)
    ensures RunEffect(files, target, durable, durable, VersionUnread)
    ensures if Stored(durable) >= target then RunEffect(files, target, durable, durable, UpToDate)
            else forall r <- {Declined, TablesFailed, ColumnsFailed} :: RunEffect(files, target, durable, durable, r)
  {
  }

  /** The requests of a script and of its version update, from those of its statements. */
  lemma ScriptWritten(log: seq<Request>, files: Files, k: int, n: nat)
    requires k in files && n <= |Statements(SplitQueries(files[k]))|
    ensures var statements, all := Statements(SplitQueries(files[k])), Script(files, k);
      && |all| == |statements| + 1
      && (n < |statements| ==> log + Written(statements, n) == log + Written(all, n))
      && (n == |statements| ==>
            && log + Written(statements, n) + [Request(Writing(VersionUpdate(k)), false)] == log + Written(all, n)
            && log + Written(statements, n) + [Request(Writing(VersionUpdate(k)), true)] == log + Written(all, n + 1))
  {
    hide Statements, SplitQueries;
    var statements, all := Statements(SplitQueries(files[k])), Script(files, k);
    assert all == statements + [VersionUpdate(k)];
    if n < |statements| {
      assert Written(statements, n) == Written(all, n);
    } else {
      assert Written(statements, n) + [Request(Writing(VersionUpdate(k)), false)] == Written(all, n);
      assert Written(statements, n) + [Request(Writing(VersionUpdate(k)), true)] == Written(all, n + 1);
    }
  }

  lemma StatementsNext(ws: seq<Write>, n: nat, parts: seq<string>, i: nat)
    requires i < |parts| && n <= |ws| && ws[n..] == Statements(parts[i..])
    ensures var s := StripComments(parts[i]);
      if s == "" then ws[n..] == Statements(parts[i + 1..])
      else n < |ws| && ws[n] == Sql(s) && ws[n + 1..] == Statements(parts[i + 1..])
  {
    hide StripComments;
    assert parts[i..][1..] == parts[i + 1..];
    var s := StripComments(parts[i]);
    if s != "" {
      assert ws[n..][0] == Sql(s) && ws[n..][1..] == Statements(parts[i + 1..]);
    }
  }

  /** Each part of a script is run in its place if there is more to it than comments and blanks. */
  lemma {:induction false} StatementsAround(a: seq<string>, p: string, b: seq<string>)
    ensures Statements(a + [p] + b)
      == Statements(a) + (if StripComments(p) == "" then [] else [Sql(StripComments(p))]) + Statements(b)
    ensures Statements([]) == []
  {
    hide StripComments;
    var own := if StripComments(p) == "" then [] else [Sql(StripComments(p))];
    if a == [] {
      assert a + [p] + b == [p] + b && ([p] + b)[1..] == b;
    } else {
      assert (a + [p] + b)[0] == a[0] && (a + [p] + b)[1..] == a[1..] + [p] + b;
      StatementsAround(a[1..], p, b);
      var first: seq<Write> := if StripComments(a[0]) == "" then [] else [Sql(StripComments(a[0]))];
      assert first + (Statements(a[1..]) + own + Statements(b)) == first + Statements(a[1..]) + own + Statements(b);
    }
  }

  lemma NoStatements()
    ensures Statements([]) == []
  {
  }

  lemma StatementsStep(pending: seq<Write>, parts: seq<string>, i: nat)
    requires i < |parts|
    ensures var s := StripComments(parts[i]);
      pending + Statements(parts[i..]) == (if s == "" then pending else pending + [Sql(s)]) + Statements(parts[i + 1..])
  {
    hide StripComments;
    assert parts[i..][1..] == parts[i + 1..];
  }

  /** What else a run asks: whether the user agrees, and that rules, permissions and triggers be created. */
  datatype Question = Consent | Rules

  class Host {
    /** All questions so far with their answers. */
    ghost var asked: seq<(Question, bool)>

    constructor ()
      ensures asked == []
    {
      asked := [];
    }

    method Ask(q: Question) returns (ok: bool)
      modifies this
      ensures asked == old(asked) + [(q, ok)]
    {
      ok := *;
      asked := asked + [(q, ok)];
    }
  }

  /** Every request is granted. */
  ghost predicate AllGranted(rs: seq<Request>) {
    forall r <- rs :: r.granted
  }

  lemma GrantedConcat(a: seq<Request>, b: seq<Request>)
    ensures AllGranted(a + b) <==> AllGranted(a) && AllGranted(b)
  {
    if AllGranted(a + b) {
      assert forall r <- a :: r in a + b;
      assert forall r <- b :: r in a + b;
    }
  }

  /** A step that does not succeed had a request refused. */
  lemma StepRefused(ws: seq<Write>, a: GroupAnswers) returns (r: Request)
    requires a.n <= |ws| && !Saved(0, ws, a)
    ensures r in GroupRequests(0, ws, a) && !r.granted
  {
    if a.begun.Refused() {
      r := Request(Beginning, false);
      assert Asked(Beginning, a.begun)[0] == r;
    } else if a.n < |ws| {
      r := Request(Writing(ws[a.n]), false);
      assert Written(ws, a.n)[a.n] == r;
    } else {
      r := Request(Committing, false);
      assert Asked(Committing, a.done)[0] == r;
    }
  }

  /** Every request made between two states of the record was granted. */
  ghost predicate GrantedSince(log: seq<Request>, all: seq<Request>) {
    log <= all && AllGranted(all[|log|..])
  }

  ghost predicate NoneRefusedSince(sent: seq<CatalogRequest>, all: seq<CatalogRequest>) {
    sent <= all && forall r <- all[|sent|..] :: r.ok
  }

  lemma LastGranted(sofar: seq<Request>, r: Request)
    ensures GrantedSince(sofar, sofar + [r]) <==> r.granted
  {
    assert (sofar + [r])[|sofar|..] == [r];
    assert r in [r];
  }

  /** What the ends of the last steps leave behind. */
  lemma UpgradeEnds(files: Files, target: int, before: seq<Write>)
    requires Stored(before) < target
    ensures
      var v := Stored(before);
      var logged := before + Log(files, v, target);
      var raised := logged + [VersionUpdate(target)];
      && (forall k :: v < k <= target && k in files ==>
            RunEffect(files, target, before, before + Log(files, v, k - 1), ScriptFailed(k)))
      && RunEffect(files, target, before, logged, RulesFailed)
      && Stored(raised) == target
      && (if LastScript(files, v, target) < target
          then RunEffect(files, target, before, logged, VersionFailed) && RunEffect(files, target, before, raised, Updated)
          else RunEffect(files, target, before, logged, Updated))
  {
    hide Log, LastScript;
    var logged := before + Log(files, Stored(before), target);
    StoredSnoc(logged, VersionUpdate(target));
    assert logged + [] == logged;
  }

  lemma NothingAsked(log: seq<Request>, sent: seq<CatalogRequest>)
    ensures GrantedSince(log, log) && NoneRefusedSince(sent, sent)
  {
  }

  lemma LaterGranted(log: seq<Request>, sofar: seq<Request>, all: seq<Request>)
    requires log <= sofar <= all
    ensures GrantedSince(log, all) <==> GrantedSince(log, sofar) && GrantedSince(sofar, all)
  {
    assert all[|log|..] == sofar[|log|..] + all[|sofar|..];
    GrantedConcat(sofar[|log|..], all[|sofar|..]);
  }

  lemma StopsMeans(asked: seq<CatalogRequest>, ok: bool, sent: seq<CatalogRequest>)
    requires StopsAtRefusal(asked, ok)
    ensures ok <==> NoneRefusedSince(sent, sent + asked)
  {
    assert (sent + asked)[|sent|..] == asked;
    if asked != [] {
      assert asked[|asked| - 1] in asked;
    }
  }

  lemma RefusedWithin(sofar: seq<Request>, ws: seq<Write>, a: GroupAnswers)
    requires a.n <= |ws| && !Saved(0, ws, a)
    ensures !GrantedSince(sofar, sofar + GroupRequests(0, ws, a))
  {
    hide GroupRequests;
    var own := GroupRequests(0, ws, a);
    assert (sofar + own)[|sofar|..] == own;
    var r := StepRefused(ws, a);
  }

  class SchemaUpdater {
    const files: Files
    const schema: seq<Table>
    const targetVersion: int
    const connection: Connection
    const refs: RefCounts
    const catalog: Catalog
    const cache: SqlQueryCache
    const host: Host
    var currentVersion: int

    /** No transaction is running, a version is stored, and the updater knows it or has not read it yet. */
    ghost predicate Ready()
      reads this, connection, refs
    {
      && !connection.db.inTransaction && connection.db.pending == [] && refs.Value(connection.name) == 0
      && Stored(connection.db.durable) >= 0
      && (currentVersion == -1 || currentVersion == Stored(connection.db.durable))
    }

    constructor (files: Files, schema: seq<Table>, targetVersion: int,
                 connection: Connection, refs: RefCounts, catalog: Catalog, cache: SqlQueryCache, host: Host)
      ensures this.files == files && this.schema == schema && this.targetVersion == targetVersion
      ensures this.connection == connection && this.refs == refs && this.catalog == catalog && this.cache == cache
      ensures this.host == host
      ensures currentVersion == -1
    {
      this.files, this.schema, this.targetVersion := files, schema, targetVersion;
      this.connection, this.refs, this.catalog, this.cache, this.host := connection, refs, catalog, cache, host;
      currentVersion := -1;
    }

    /** `read` is false where reading the version fails; the source then exits and answers that nothing is needed. */
    method NeedsUpdate() returns (needed: bool, read: bool)
      requires Ready()
      modifies this`currentVersion, connection`requests
      ensures Ready()
      ensures connection.requests
        == old(connection.requests) + if old(currentVersion) < 0 then [Request(ReadingVersion, read)] else []
      ensures read ==> currentVersion == Stored(connection.db.durable) && (needed <==> currentVersion < targetVersion)
      ensures !read ==> !needed && currentVersion == old(currentVersion) < 0
    {
      read := true;
      if currentVersion < 0 {
        read := connection.ReadVersion();
        if !read {
          return false, false;
        }
        currentVersion := Stored(connection.db.durable);
      }
      needed := currentVersion < targetVersion;
    }

    method PendingUpdates() returns (updates: seq<int>)
      ensures updates == Pending(files, currentVersion, targetVersion)
    {
      updates := [];
      var i := currentVersion + 1;
      while i <= targetVersion
        invariant currentVersion + 1 <= i && (i <= targetVersion + 1 || i == currentVersion + 1)
        invariant updates == Pending(files, currentVersion, i - 1)
      {
        if i in files {
          updates := updates + [i];
        }
        i := i + 1;
      }
    }

    /** Runs one script inside the current transaction. */
    method ExecUpdate(k: int) returns (ok: bool, ghost n: nat)
      requires k in files && connection.db.inTransaction
      modifies connection
      ensures connection.db == old(connection.db).(pending := connection.db.pending)
      ensures ok ==> connection.db.pending == old(connection.db.pending) + Statements(SplitQueries(files[k]))
      ensures var ws := Statements(SplitQueries(files[k]));
        n <= |ws| && (ok <==> n == |ws|) && connection.requests == old(connection.requests) + Written(ws, n)
    {
      hide SplitQueries, StripComments, Statements, Written;
      n := 0;
      var parts := SplitQueries(files[k]);
      ghost var ws := Statements(parts);
      NoStatements();
      NothingWritten([]);
      assert parts[0..] == parts && ws[..0] == [];
      for i := 0 to |parts|
        invariant connection.db == old(connection.db).(pending := connection.db.pending)
        invariant connection.db.pending + Statements(parts[i..]) == old(connection.db.pending) + Statements(parts)
        invariant n <= |ws| && ws[n..] == Statements(parts[i..])
        invariant connection.requests == old(connection.requests) + Written(ws[..n], n)
      {
        StatementsStep(connection.db.pending, parts, i);
        StatementsNext(ws, n, parts, i);
        var statement := StripComments(parts[i]);
        if statement != "" {
          WrittenStep(old(connection.requests), ws, n);
          ok := connection.Exec(Sql(statement));
          if !ok {
            return;
          }
          n := n + 1;
        }
      }
      assert parts[|parts|..] == [] && connection.db.pending + [] == connection.db.pending;
      assert n == |ws| && ws[..n] == ws by {
        assert |ws[n..]| == 0;
      }
      ok := true;
    }

    /** One update step: the script, the version and the commit, or nothing of it. */
    method UpdateStep(k: int) returns (ok: bool, ghost refused: bool, ghost a: GroupAnswers)
      requires k in files
      requires !connection.db.inTransaction && connection.db.pending == [] && refs.Value(connection.name) == 0
      modifies connection, refs, this`currentVersion
      ensures refs.Value(connection.name) == 0
      ensures ok ==> connection.db.durable == old(connection.db.durable) + Script(files, k) && currentVersion == k && !refused
      ensures !ok ==> connection.db.durable == old(connection.db.durable) && currentVersion == old(currentVersion)
      ensures !refused ==> !connection.db.inTransaction && connection.db.pending == []
      ensures a.n <= |Script(files, k)| && connection.requests == old(connection.requests) + GroupRequests(0, Script(files, k), a)
      ensures Script(files, k) == Statements(SplitQueries(files[k])) + [VersionUpdate(k)]
      ensures (ok <==> Saved(0, Script(files, k), a)) && (refused <==> Began(0, a) && !ok && !a.undone)
    {
      hide Statements, SplitQueries, Written, Asked, GroupRequests;
      ghost var ws, log := Script(files, k), connection.requests;
      refused, a := false, GroupAnswers(Answers(true, true), 0, Answers(true, true), true);
      var t, started, answers := SqlTransaction.Start(connection, refs);
      a := a.(begun := answers);
      if !started {
        NeverBegun(log, ws, a);
        return false, false, a;
      }
      ghost var begun := connection.requests;
      ghost var n;
      ok, n := ExecUpdate(k);
      a := a.(n := n);
      ScriptWritten(begun, files, k, n);
      if ok {
        ok := connection.Exec(VersionUpdate(k));
        a := a.(n := if ok then n + 1 else n);
      }
      ghost var written := connection.requests;
      if ok {
        ok, answers := t.Commit();
        a := a.(done := answers);
      }
      if ok {
        currentVersion := k;
      }
      ghost var ended := connection.requests;
      ghost var answer := t.Destroy();
      a := a.(undone := answer);
      refused := !ok && !answer;
      GroupLogged(0, ws, a, log, begun, written, ended, connection.requests);
    }

    /** Runs the pending scripts; `failed` is the version of the one that failed. */
    method RunScripts(updates: seq<int>) returns (ok: bool, failed: int, ghost refused: bool)
      requires Ready() && currentVersion >= 0 && updates == Pending(files, currentVersion, targetVersion)
      modifies connection, refs, this`currentVersion
      ensures refs.Value(connection.name) == 0
      ensures !refused ==> Ready()
      ensures currentVersion == Stored(connection.db.durable)
      ensures old(connection.requests) <= connection.requests
      ensures GrantedSince(old(connection.requests), connection.requests) ==> ok
      ensures var v, before := old(currentVersion), old(connection.db.durable);
        if ok then connection.db.durable == before + Log(files, v, targetVersion) && !refused
        else v < failed <= targetVersion && failed in files && connection.db.durable == before + Log(files, v, failed - 1)
    {
      hide Log, LogOf, Pending, LastScript, Script, Stored, GroupRequests, GrantedSince;
      ghost var log := connection.requests;
      ghost var v, before := currentVersion, connection.db.durable;
      PendingLog(files, v, targetVersion);
      NothingLogged(files, before);
      for i := 0 to |updates|
        invariant Ready() && currentVersion == Stored(connection.db.durable) >= 0
        invariant connection.db.durable == before + LogOf(files, updates[..i])
        invariant log <= connection.requests
      {
        var k := updates[i];
        PendingAt(files, v, targetVersion, i);
        PendingLog(files, v, k - 1);
        LogOfSnoc(files, updates, i, before);
        StoredAfterScript(connection.db.durable, files, k);
        ghost var sofar := connection.requests;
        ghost var a;
        ok, refused, a := UpdateStep(k);
        if !ok {
          RefusedWithin(sofar, Script(files, k), a);
          LaterGranted(log, sofar, connection.requests);
          return false, k, refused;
        }
      }
      assert updates[..|updates|] == updates;
      ok, failed, refused := true, 0, false;
    }

    /** Steps 3 and 4: scripts, rules, and the version of the target. */
    method Upgrade() returns (r: Result, ghost refused: bool, ghost scripts: bool, ghost rules: bool, ghost version: bool)
      requires Ready() && currentVersion == Stored(connection.db.durable) < targetVersion
      modifies this`currentVersion, connection, refs, host
      ensures old(connection.requests) <= connection.requests
      ensures GrantedSince(old(connection.requests), connection.requests) ==> scripts && version
      ensures host.asked == old(host.asked) + if scripts then [(Rules, rules)] else []
      ensures if !scripts then r.ScriptFailed? else if !rules then r == RulesFailed else if !version then r == VersionFailed
              else r == Updated
      ensures !version ==> scripts && rules && LastScript(files, old(currentVersion), targetVersion) < targetVersion
      ensures !rules ==> scripts
      ensures RunEffect(files, targetVersion, old(connection.db.durable), connection.db.durable, r)
      ensures currentVersion == Stored(connection.db.durable)
      ensures refs.Value(connection.name) == 0
      ensures if refused then r.ScriptFailed? else Ready()
    {
      hide Log, LastScript, Stored, Pending, GrantedSince, RunEffect, Script, DbWrite, CountOf;
      ghost var v, log, before := currentVersion, connection.requests, connection.db.durable;
      scripts, rules, version := true, true, true;
      StoredAfterLog(before, files, targetVersion);
      LastScriptBounds(files, v, targetVersion);
      UpgradeEnds(files, targetVersion, before);
      var updates := PendingUpdates();
      var ok, failed;
      ok, failed, refused := RunScripts(updates);
      scripts := ok;
      if !ok {
        r := ScriptFailed(failed);
        return;
      }
      ok := host.Ask(Rules);
      rules := ok;
      if !ok {
        r := RulesFailed;
        return;
      }
      ghost var sofar := connection.requests;
      ok := RaiseVersion();
      LaterGranted(log, sofar, connection.requests);
      version := ok;
      r := if ok then Updated else VersionFailed;
    }

    /** Stores the target version unless the scripts did. */
    method RaiseVersion() returns (ok: bool)
      requires !connection.db.inTransaction
      modifies this`currentVersion, connection
      ensures old(currentVersion) >= targetVersion ==> ok && connection.requests == old(connection.requests)
      ensures old(currentVersion) < targetVersion ==>
        connection.requests == old(connection.requests) + [Request(Writing(VersionUpdate(targetVersion)), ok)]
      ensures GrantedSince(old(connection.requests), connection.requests) <==> ok
      ensures var raised := ok && old(currentVersion) < targetVersion;
        && connection.db == (if raised
             then old(connection.db).(durable := old(connection.db.durable) + [VersionUpdate(targetVersion)])
             else old(connection.db))
        && currentVersion == if raised then targetVersion else old(currentVersion)
    {
      ok := true;
      NothingAsked(connection.requests, []);
      if currentVersion < targetVersion {
        ghost var sofar := connection.requests;
        ok := connection.Exec(VersionUpdate(targetVersion));
        LastGranted(sofar, Request(Writing(VersionUpdate(targetVersion)), ok));
        if ok {
          currentVersion := targetVersion;
        }
      }
    }

    /** Steps 1 and 2. */
    method UpdateSchema() returns (tables: bool, columns: bool)
      requires WellDeclared(schema)
      modifies catalog
      ensures old(catalog.requests) <= catalog.requests
      ensures tables && columns <==> NoneRefusedSince(old(catalog.requests), catalog.requests)
      ensures !tables ==> columns
      ensures Kept(old(catalog.tables), catalog.tables) && catalog.allLegal == old(catalog.allLegal)
      ensures tables && columns ==> InPlace(catalog.tables, schema)
    {
      hide StopsAtRefusal, NoneRefusedSince, MissingTables, IssuedUpTo, InPlace;
      ghost var sent, ds := catalog.requests, MissingTables(schema, catalog.tables.Keys);
      ghost var n, asked;
      tables, n := CreateMissingTables(schema, catalog);
      columns := true;
      UpToStops(ds, n);
      StopsMeans(IssuedUpTo(ds, n), tables, sent);
      if tables {
        ghost var withTables := catalog.tables;
        columns, asked := CreateMissingColumns(schema, catalog);
        Stops(IssuedUpTo(ds, n), asked, columns);
        StopsMeans(IssuedUpTo(ds, n) + asked, columns, sent);
        assert sent + IssuedUpTo(ds, n) + asked == sent + (IssuedUpTo(ds, n) + asked);
        KeptTransitive(old(catalog.tables), withTables, catalog.tables);
      }
    }

    /** One run of the updater. `refused` says that the driver refused to roll a failed step back; the application
        exits then, and with it the connection. The cache is on afterwards exactly if the database was outdated and all
        went well: a database that needs no update, or whose user declines it, is left without one. An outdated
        database is reported as up to date exactly if its version was not known and cannot be read. */
    method ExecUpdates(interactive: bool) returns (r: Result, ghost refused: bool, ghost g: Granted)
      requires Ready() && WellDeclared(schema)
      modifies this`currentVersion, connection, refs, catalog, cache, host
      ensures old(connection.requests) <= connection.requests
      ensures GrantedSince(old(connection.requests), connection.requests) ==> g.read && g.scripts && g.version
      ensures old(catalog.requests) <= catalog.requests
      ensures g.tables && g.columns <==> NoneRefusedSince(old(catalog.requests), catalog.requests)
      ensures host.asked == old(host.asked)
        + (if interactive && old(Stored(connection.db.durable)) < targetVersion && (old(currentVersion) >= 0 || g.read)
           then [(Consent, g.apply)] else [])
        + (if r in {RulesFailed, VersionFailed, Updated} then [(Rules, g.rules)] else [])
      ensures RunEffect(files, targetVersion, old(connection.db.durable), connection.db.durable, r)
      ensures r != VersionUnread ==> currentVersion == Stored(connection.db.durable)
      ensures refs.Value(connection.name) == 0
      ensures !refused ==> Ready()
      ensures refused ==> r.ScriptFailed?
      ensures var stored, known := old(Stored(connection.db.durable)), old(currentVersion) >= 0;
        && (cache.enabled <==> stored < targetVersion && (known || g.read) && (interactive ==> g.apply)
                               && FullyGranted(g, files, stored, targetVersion))
        && (cache.enabled <==> r == Updated)
        && (r == Declined <==> stored < targetVersion && (known || g.read) && interactive && !g.apply)
        && (r in {UpToDate, VersionUnread} <==> stored >= targetVersion || (!known && !g.read))
        && (r == UpToDate <==> stored >= targetVersion && (known || g.read))
      ensures Kept(old(catalog.tables), catalog.tables) && catalog.allLegal == old(catalog.allLegal)
      ensures r.ScriptFailed? || r == RulesFailed || r == VersionFailed || r == Updated ==> InPlace(catalog.tables, schema)
    {
      hide LastScript, RunEffect, GrantedSince, NoneRefusedSince, InPlace, Kept;
      refused, g := false, Granted(true, true, true, true, true, true, true);
      ghost var log, sent := connection.requests, catalog.requests;
      NothingAsked(log, sent);
      KeptSame(catalog.tables);
      assert old(host.asked) + [] + [] == old(host.asked);
      cache.Enable(false);
      var needed, read := NeedsUpdate();
      g := g.(read := read);
      LastGranted(log, Request(ReadingVersion, read));
      if !read {
        NothingDone(files, targetVersion, connection.db.durable);
        return VersionUnread, false, g;
      }
      NothingDone(files, targetVersion, connection.db.durable);
      if !needed {
        return UpToDate, false, g;
      }
      if interactive {
        var applied := host.Ask(Consent);
        g := g.(apply := applied);
        if !applied {
          return Declined, false, g;
        }
      }
      var tables, columns := UpdateSchema();
      g := g.(tables := tables, columns := columns);
      if !tables {
        return TablesFailed, false, g;
      }
      if !columns {
        return ColumnsFailed, false, g;
      }
      ghost var sofar := connection.requests;
      ghost var scripts, rules, version;
      r, refused, scripts, rules, version := Upgrade();
      g := g.(scripts := scripts, rules := rules, version := version);
      LaterGranted(log, sofar, connection.requests);
      assert old(host.asked) + [] == old(host.asked);
      if r == Updated {
        cache.Enable(true);
      }
    }
  }
}
