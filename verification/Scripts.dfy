/** SQL scripts: splitting them into statements, stripping comments, running them as one batch. */
module Scripts {
  import opened QtText
  import opened Transactions

  // ----- splitting -----

  const SEPARATOR := ";\n"

  /** The text in front of the first separator. */
  function PartOf(s: string): (p: string)
    ensures p <= s
  {
    if s == "" || SEPARATOR <= s then "" else [s[0]] + PartOf(s[1..])
  }

  /** The non-empty parts between separators. */
  function SplitQueries(s: string): seq<string>
    decreases |s|
  {
    var p := PartOf(s);
    var rest := s[|p|..];
    (if p == "" then [] else [p]) + (if |rest| < 2 then [] else SplitQueries(rest[2..]))
  }

  ghost predicate SeparatorFree(s: string) {
    forall i :: 0 <= i < |s| - 1 ==> !(s[i] == ';' && s[i + 1] == '\n')
  }

  lemma {:induction false} PartOfStops(s: string)
    ensures SeparatorFree(PartOf(s))
    ensures var rest := s[|PartOf(s)|..]; rest == "" || SEPARATOR <= rest
  {
    if s != "" && !(SEPARATOR <= s) {
      PartOfStops(s[1..]);
      var p := PartOf(s[1..]);
      assert s[1..][|p|..] == s[|p| + 1..];
      if p != "" {
        assert p[0] == s[1];
        assert s[..2] == [s[0], s[1]];
        assert !(s[0] == ';' && s[1] == '\n');
      }
    }
  }

  lemma {:induction false} SplitPartsClean(s: string)
    ensures forall p <- SplitQueries(s) :: p != "" && SeparatorFree(p)
    decreases |s|
  {
    PartOfStops(s);
    var rest := s[|PartOf(s)|..];
    if |rest| >= 2 {
      SplitPartsClean(rest[2..]);
    }
  }

  lemma {:induction false} PartOfClean(p: string, rest: string)
    requires SeparatorFree(p) && (rest == "" || SEPARATOR <= rest)
    ensures PartOf(p + rest) == p
  {
    if p == "" {
      assert p + rest == rest;
    } else {
      var s := p + rest;
      assert s[1..] == p[1..] + rest;
      PartOfClean(p[1..], rest);
      assert SEPARATOR[0] == ';' && SEPARATOR[1] == '\n';
      if |p| > 1 {
        assert s[1] == p[1];
      } else if rest != "" {
        assert s[1] == rest[0] == ';';
      }
    }
  }

  lemma {:induction false} SplitClean(parts: seq<string>)
    requires forall p <- parts :: p != "" && SeparatorFree(p)
    ensures SplitQueries(Join(parts, SEPARATOR)) == parts
  {
    if parts == [] {
      assert PartOf("") == "";
    } else {
      var p := parts[0];
      var rest := if |parts| == 1 then "" else SEPARATOR + Join(parts[1..], SEPARATOR);
      var s := Join(parts, SEPARATOR);
      assert s == p + rest;
      PartOfClean(p, rest);
      assert s[|p|..] == rest;
      assert parts == [p] + parts[1..];
      if |parts| > 1 {
        assert rest[2..] == Join(parts[1..], SEPARATOR);
        assert forall q <- parts[1..] :: q in parts;
        SplitClean(parts[1..]);
      }
    }
  }

  /** Joining with the separator and splitting gives the parts back exactly if none is empty or contains it. */
  lemma SplitJoinExact(parts: seq<string>)
    ensures SplitQueries(Join(parts, SEPARATOR)) == parts <==> forall p <- parts :: p != "" && SeparatorFree(p)
  {
    if forall p <- parts :: p != "" && SeparatorFree(p) {
      SplitClean(parts);
    }
    SplitPartsClean(Join(parts, SEPARATOR));
  }

  function NonEmpty(parts: seq<string>): seq<string> {
    if parts == [] then [] else (if parts[0] == "" then [] else [parts[0]]) + NonEmpty(parts[1..])
  }

  /** A text is its first part, or its first part, a separator and a shorter text. */
  lemma SplitNext(s: string)
    ensures var p := PartOf(s);
      var first := if p == "" then [] else [p];
      if s[|p|..] == "" then s == p && SplitQueries(s) == first
      else |s| >= |p| + 2 && s == p + ";\n" + s[|p| + 2..] && SplitQueries(s) == first + SplitQueries(s[|p| + 2..])
  {
    hide PartOf, SeparatorFree;
    PartOfStops(s);
    var p := PartOf(s);
    var rest := s[|p|..];
    assert s == p + rest;
    if rest != "" {
      assert rest == SEPARATOR + rest[2..] && rest[2..] == s[|p| + 2..];
    } else {
      assert (if p == "" then [] else [p]) + [] == if p == "" then [] else [p];
    }
  }

  lemma OnePart(p: string)
    ensures Join([p], ";\n") == p && NonEmpty([p]) == if p == "" then [] else [p]
  {
    assert [p][1..] == [];
  }

  lemma OneMorePart(p: string, more: seq<string>)
    requires more != []
    ensures Join([p] + more, ";\n") == p + ";\n" + Join(more, ";\n")
    ensures NonEmpty([p] + more) == (if p == "" then [] else [p]) + NonEmpty(more)
  {
    assert ([p] + more)[1..] == more;
  }

  /** Any text is its parts with separators between them, and splitting gives those that are not empty. */
  lemma {:induction false} SplitExact(s: string) returns (parts: seq<string>)
    ensures parts != [] && s == Join(parts, ";\n") && (forall p <- parts :: SeparatorFree(p))
    ensures SplitQueries(s) == NonEmpty(parts)
    decreases |s|
  {
    hide SeparatorFree, PartOf, Join, NonEmpty, SplitQueries;
    var p := PartOf(s);
    PartOfStops(s);
    SplitNext(s);
    if s[|p|..] == "" {
      parts := [p];
      OnePart(p);
    } else {
      var more := SplitExact(s[|p| + 2..]);
      parts := [p] + more;
      OneMorePart(p, more);
    }
  }

  // ----- comments -----

  predicate LineBreak(c: char) {
    c == '\n' || c == '\r'
  }

  /** How far it is to the end of the line, its break included. */
  function LineLength(s: string): (n: nat)
    ensures n <= |s|
  {
    if s == "" then 0 else if LineBreak(s[0]) then 1 else 1 + LineLength(s[1..])
  }

  /** The length of the match at the start of a text: two dashes, any one character, the rest of the line. */
  function CommentLength(s: string): (n: nat)
    ensures n <= |s|
  {
    if |s| >= 3 && s[0] == '-' && s[1] == '-' then 3 + (if s[3..] == "" then 0 else LineLength(s[3..])) else 0
  }

  function WithoutComments(s: string): string
    decreases |s|
  {
    if s == "" then ""
    else if CommentLength(s) > 0 then WithoutComments(s[CommentLength(s)..])
    else [s[0]] + WithoutComments(s[1..])
  }

  function StripComments(query: string): string {
    Trimmed(WithoutComments(query))
  }

  /** Nothing the pattern matches: two dashes stand at the very end or nowhere. */
  ghost predicate Clean(s: string) {
    forall i :: 0 <= i < |s| - 2 ==> !(s[i] == '-' && s[i + 1] == '-')
  }

  lemma {:induction false} WithoutCommentsClean(s: string)
    ensures Clean(WithoutComments(s))
    decreases |s|
  {
    if s == "" {
    } else if CommentLength(s) > 0 {
      WithoutCommentsClean(s[CommentLength(s)..]);
    } else {
      WithoutCommentsClean(s[1..]);
      var rest := WithoutComments(s[1..]);
      if |s| >= 2 && s[1] != '-' {
        assert rest[0] == s[1];
      } else if |s| == 2 {
        assert s[1..][1..] == "" && CommentLength(s[1..]) == 0;
        assert rest == [s[1]] + WithoutComments("");
      }
    }
  }

  lemma {:induction false} CleanStays(s: string)
    requires Clean(s)
    ensures WithoutComments(s) == s
    decreases |s|
  {
    if s != "" {
      assert CommentLength(s) == 0;
      forall i | 0 <= i < |s[1..]| - 2
        ensures !(s[1..][i] == '-' && s[1..][i + 1] == '-')
      {
        assert !(s[i + 1] == '-' && s[i + 1 + 1] == '-');
      }
      CleanStays(s[1..]);
    }
  }

  lemma {:induction false} TrimLeftSuffix(s: string) returns (k: nat)
    ensures k <= |s| && TrimLeft(s) == s[k..] && (s[k..] != "" ==> !IsSpace(s[k]))
  {
    k := 0;
    if s != "" && IsSpace(s[0]) {
      k := TrimLeftSuffix(s[1..]);
      assert s[1..][k..] == s[k + 1..];
      k := k + 1;
    }
  }

  lemma {:induction false} TrimRightPrefix(s: string) returns (k: nat)
    ensures k <= |s| && TrimRight(s) == s[..k] && (k > 0 ==> !IsSpace(s[k - 1]))
  {
    k := |s|;
    if s != "" && IsSpace(s[|s| - 1]) {
      k := TrimRightPrefix(s[..|s| - 1]);
      assert s[..|s| - 1][..k] == s[..k];
    }
  }

  lemma TrimmedKeeps(s: string)
    ensures Trimmed(Trimmed(s)) == Trimmed(s)
    ensures Clean(s) ==> Clean(Trimmed(s))
  {
    var k := TrimLeftSuffix(s);
    var left := s[k..];
    var n := TrimRightPrefix(left);
    var t := left[..n];
    assert t == Trimmed(s);
    assert t != "" ==> !IsSpace(t[0]) && !IsSpace(t[|t| - 1]);
    forall i | 0 <= i < |t| - 2 && Clean(s)
      ensures !(t[i] == '-' && t[i + 1] == '-')
    {
      assert t[i] == s[i + k] && t[i + 1] == s[i + k + 1];
    }
  }

  /** Stripping twice is stripping once. */
  lemma StripIdempotent(query: string)
    ensures StripComments(StripComments(query)) == StripComments(query)
    ensures Clean(StripComments(query))
  {
    WithoutCommentsClean(query);
    TrimmedKeeps(WithoutComments(query));
    CleanStays(StripComments(query));
  }

  /** Text in front of a comment: it holds no two dashes and does not end in one. */
  ghost predicate NoDashes(s: string) {
    && (forall i :: 0 <= i < |s| - 1 ==> !(s[i] == '-' && s[i + 1] == '-'))
    && (s != "" ==> s[|s| - 1] != '-')
  }

  ghost predicate OneLine(s: string) {
    forall c <- s :: c != '\n' && c != '\r'
  }

  lemma {:induction false} HeadKept(head: string, s: string)
    requires NoDashes(head)
    ensures WithoutComments(head + s) == head + WithoutComments(s)
  {
    if head == "" {
      assert head + s == s;
    } else {
      var all := head + s;
      assert all[1..] == head[1..] + s;
      forall i | 0 <= i < |head[1..]| - 1
        ensures !(head[1..][i] == '-' && head[1..][i + 1] == '-')
      {
        assert !(head[i + 1] == '-' && head[i + 1 + 1] == '-');
      }
      assert |head| > 1 ==> all[1] == head[1];
      HeadKept(head[1..], s);
    }
  }

  lemma {:induction false} LineEnds(line: string, end: string, rest: string)
    requires OneLine(line) && (end == "\n" || end == "\r")
    ensures LineLength(line + end + rest) == |line| + 1
  {
    var s := line + end + rest;
    if line != "" {
      assert s[1..] == line[1..] + end + rest;
      assert line[0] in line && forall c <- line[1..] :: c in line;
      LineEnds(line[1..], end, rest);
    }
  }

  lemma {:induction false} LastLine(line: string)
    requires OneLine(line)
    ensures LineLength(line) == |line|
  {
    if line != "" {
      assert line[0] in line && forall c <- line[1..] :: c in line;
      LastLine(line[1..]);
    }
  }

  lemma CommentGone(text: string, end: string, rest: string)
    requires OneLine(text) && text != "" && (end == "\n" || end == "\r")
    ensures WithoutComments("--" + text + end + rest) == WithoutComments(rest)
  {
    var s := "--" + text + end + rest;
    assert forall c <- text[1..] :: c in text;
    LineEnds(text[1..], end, rest);
    assert s[3..] == text[1..] + end + rest;
    assert s[|text| + 3..] == rest;
  }

  lemma NextLineGone(line: string, rest: string)
    requires OneLine(line)
    ensures WithoutComments("--\n" + line + "\n" + rest) == WithoutComments(rest)
  {
    var s := "--\n" + line + "\n" + rest;
    LineEnds(line, "\n", rest);
    assert s[3..] == line + "\n" + rest;
    assert s[|line| + 4..] == rest;
  }

  /** A comment takes its own line away and nothing else, whatever follows, exactly if there is text behind its
      dashes. An empty comment takes the next line with it. */
  lemma CommentExtentExact(head: string, text: string, end: string)
    requires NoDashes(head) && OneLine(text) && (end == "\n" || end == "\r")
    ensures (forall rest :: WithoutComments(head + ("--" + text + end + rest)) == head + WithoutComments(rest))
      <==> text != ""
    ensures forall line, rest :: OneLine(line) ==>
      WithoutComments(head + ("--\n" + line + "\n" + rest)) == head + WithoutComments(rest)
  {
    hide WithoutComments;
    if text != "" {
      forall rest
        ensures WithoutComments(head + ("--" + text + end + rest)) == head + WithoutComments(rest)
      {
        HeadKept(head, "--" + text + end + rest);
        CommentGone(text, end, rest);
      }
    } else {
      LastLineGone(end);
      assert "--" + text + end + "x" == "--" + end + "x";
      HeadKept(head, "--" + end + "x");
      assert head + WithoutComments("x") != head + "" by {
        assert |head + WithoutComments("x")| == |head| + 1;
      }
    }
    forall line, rest | OneLine(line)
      ensures WithoutComments(head + ("--\n" + line + "\n" + rest)) == head + WithoutComments(rest)
    {
      HeadKept(head, "--\n" + line + "\n" + rest);
      NextLineGone(line, rest);
    }
  }

  lemma LastLineGone(end: string)
    requires |end| == 1
    ensures WithoutComments("--" + end + "x") == "" && WithoutComments("x") == "x"
  {
    var s := "--" + end + "x";
    assert s[3..] == "x" && "x"[1..] == "";
    assert LineLength("x") == 1;
    assert s[4..] == "";
    assert WithoutComments("") == "";
  }

  /** A comment on the last line goes as well, and two dashes at the very end stay. */
  lemma LastCommentExact(head: string, text: string)
    requires NoDashes(head) && OneLine(text)
    ensures WithoutComments(head + ("--" + text)) == if text == "" then head + "--" else head
  {
    var s := "--" + text;
    HeadKept(head, s);
    if text == "" {
      assert s == "--" && s[1..] == "-" && s[1..][1..] == "";
      assert WithoutComments("-") == "-" + WithoutComments("");
    } else {
      assert forall c <- text[1..] :: c in text;
      LastLine(text[1..]);
      assert s[3..] == text[1..] && s[|s|..] == "";
      assert head + "" == head;
    }
  }

  /** Stripping takes comments out and then blanks from both ends. */
  lemma StripExact(query: string) returns (l: string, r: string)
    ensures Blanks(l) && Blanks(r) && WithoutComments(query) == l + StripComments(query) + r && Neat(StripComments(query))
  {
    l, r := TrimmedSplit(WithoutComments(query));
  }

  /** A statement without comments and without outer blanks is left alone. */
  lemma StripKeeps(s: string)
    requires (forall i :: 0 <= i < |s| - 1 ==> !(s[i] == '-' && s[i + 1] == '-')) && Neat(s)
    ensures StripComments(s) == s
  {
    CleanStays(s);
    TrimmedExact("", s, "");
    assert "" + s + "" == s;
  }

  // ----- batches -----

  /** The stripped statements in front of the first one shorter than three characters. */
  function ToRun(stmts: seq<string>): seq<Write> {
    if stmts == [] || |StripComments(stmts[0])| < 3 then []
    else [Sql(StripComments(stmts[0]))] + ToRun(stmts[1..])
  }

  lemma NothingToRun()
    ensures ToRun([]) == []
  {
  }

  /** They are the first so many statements in order, each stripped and of three characters at least; behind them the
      script ends or a shorter one follows. */
  lemma {:induction false} ToRunExact(stmts: seq<string>)
    ensures var n := |ToRun(stmts)|;
      && n <= |stmts|
      && (forall i :: 0 <= i < n ==> ToRun(stmts)[i] == Sql(StripComments(stmts[i])) && |StripComments(stmts[i])| >= 3)
      && (n < |stmts| ==> |StripComments(stmts[n])| < 3)
  {
    hide StripComments;
    if stmts != [] && |StripComments(stmts[0])| >= 3 {
      ToRunExact(stmts[1..]);
    }
  }

  datatype BatchResult = Done | EmptyInput | StatementFailed | StartFailed | CommitFailed

  /** How a batch with statements ends, told by the driver's answers. */
  function BatchEnd(count: int, ws: seq<Write>, a: GroupAnswers): BatchResult {
    if !Began(count, a) then StartFailed
    else if a.n < |ws| then StatementFailed
    else if !Saved(count, ws, a) then CommitFailed
    else Done
  }

  /** Runs a script in one transaction. `StartFailed` and `CommitFailed` are exceptions, `refused` says whether the
      driver refused the rollback of an abandoned batch, `ran` is what was executed, `a` are the driver's answers. */
  method BatchExec(sql: string, connection: Connection, refs: RefCounts)
    returns (r: BatchResult, ghost ran: seq<Write>, ghost refused: bool, ghost a: GroupAnswers)
    requires refs.Value(connection.name) >= 0
    requires connection.db.inTransaction <==> refs.Value(connection.name) > 0
    modifies connection, refs
    ensures refs.Value(connection.name) == old(refs.Value(connection.name))
    ensures ran <= ToRun(SplitQueries(sql)) && (r == Done ==> ran == ToRun(SplitQueries(sql)))
    ensures old(refs.Value(connection.name)) > 0 ==>
      connection.db == old(connection.db).(pending := old(connection.db.pending) + ran)
    ensures old(refs.Value(connection.name)) == 0 && !refused ==>
      && !connection.db.inTransaction
      && connection.db.durable == old(connection.db.durable) + (if r == Done then ran else [])
    ensures sql == "" <==> r == EmptyInput
    ensures SplitQueries(sql) == [] ==> connection.requests == old(connection.requests) && r in {EmptyInput, Done}
    ensures SplitQueries(sql) != [] ==>
      var count, ws := old(refs.Value(connection.name)), ToRun(SplitQueries(sql));
      && a.n <= |ws| && r == BatchEnd(count, ws, a)
      && connection.requests == old(connection.requests) + GroupRequests(count, ws, a)
      && (Began(count, a) ==> ran == ws[..a.n])
      && refused == (count == 0 && Began(count, a) && !Saved(count, ws, a) && !a.undone)
  {
    hide ToRun, SplitQueries, StripComments, Written, Asked, GroupRequests;
    ran, refused := [], false;
    a := GroupAnswers(Answers(true, true), 0, Answers(true, true), true);
    if sql == "" {
      NothingSplit();
      return EmptyInput, [], false, a;
    }
    var stmts := SplitQueries(sql);
    if stmts == [] {
      NothingToRun();
      return Done, [], false, a;
    }
    ghost var ws, count, log := ToRun(stmts), refs.Value(connection.name), connection.requests;
    var t, ok, answers := SqlTransaction.Start(connection, refs);
    a := a.(begun := answers);
    if !ok {
      NeverBegun(log, ws, a);
      return StartFailed, [], false, a;
    }
    ghost var begun := connection.requests;
    ok, ran := RunStatements(stmts, connection);
    a := a.(n := |ran|);
    ghost var written := connection.requests;
    r := StatementFailed;
    if ok {
      ok, answers := t.Commit();
      a := a.(done := answers);
      r := if ok then Done else CommitFailed;
    }
    ghost var ended := connection.requests;
    ghost var answer := t.Destroy();
    a := a.(undone := answer);
    refused := count == 0 && r != Done && !answer;
    GroupLogged(count, ws, a, log, begun, written, ended, connection.requests);
  }

  lemma NothingSplit()
    ensures SplitQueries("") == []
  {
  }

  method RunStatements(stmts: seq<string>, connection: Connection) returns (ok: bool, ghost ran: seq<Write>)
    requires connection.db.inTransaction
    modifies connection
    ensures connection.db == old(connection.db).(pending := old(connection.db.pending) + ran)
    ensures ran <= ToRun(stmts) && (ok <==> ran == ToRun(stmts))
    ensures connection.requests == old(connection.requests) + Written(ToRun(stmts), |ran|)
  {
    hide ToRun, StripComments, Written;
    ghost var ws := ToRun(stmts);
    ran := [];
    ToRunExact(stmts);
    NothingWritten([]);
    assert ws[..0] == [];
    for i := 0 to |stmts|
      invariant connection.db == old(connection.db).(pending := old(connection.db.pending) + ran)
      invariant |ran| == i <= |ws| && ran == ws[..i]
      invariant connection.requests == old(connection.requests) + Written(ws[..i], i)
    {
      var sqlstmt := StripComments(stmts[i]);
      if |sqlstmt| < 3 {
        assert ws[..i] == ws;
        return true, ran;
      }
      WrittenStep(old(connection.requests), ws, i);
      ok := connection.Exec(Sql(sqlstmt));
      if !ok {
        return false, ran;
      }
      ran := ran + [Sql(sqlstmt)];
    }
    assert ws[..|stmts|] == ws;
    ok := true;
  }
}
