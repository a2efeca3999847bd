/** Readers of statement text with word tables of their own, and what they find in the text the builders print. */
module Readers {
  import opened Conditions
  import opened Tokens
  import opened Printing
  import opened Parsing
  import opened Statements
  import opened Builders
  import opened Segments
  import opened SelectText
  import opened StatementText
  import opened TextLaws

  /** Where a word stands first, the length of the text if nowhere. */
  function First(s: string, w: string): (n: nat)
    ensures n <= |s|
  {
    if s == "" || WordAt(s, 0, w) then 0 else 1 + First(s[1..], w)
  }

  lemma WordInTail(s: string, i: nat, w: string)
    requires s != ""
    ensures WordAt(s[1..], i, w) <==> WordAt(s, i + 1, w)
  {
    if i + 1 + |w| <= |s| {
      assert s[1..][i..i + |w|] == s[i + 1..i + 1 + |w|];
    }
  }

  lemma {:induction false} FirstIs(s: string, n: nat, w: string)
    requires w != "" && WordAt(s, n, w) && forall i: nat :: i < n ==> !WordAt(s, i, w)
    ensures First(s, w) == n
  {
    if n > 0 {
      WordInTail(s, n - 1, w);
      forall i: nat | i < n - 1
        ensures !WordAt(s[1..], i, w)
      {
        WordInTail(s, i, w);
      }
      FirstIs(s[1..], n - 1, w);
    }
  }

  lemma {:induction false} NoFirst(s: string, w: string)
    requires w != "" && FreeOf(s, w)
    ensures First(s, w) == |s|
  {
    if s != "" {
      forall i: nat
        ensures !WordAt(s[1..], i, w)
      {
        WordInTail(s, i, w);
      }
      NoFirst(s[1..], w);
    }
  }

  /** Behind a text without the word, and with a space or punctuation between, the word is where it is put. */
  lemma FirstBehind(a: string, w: string, b: string)
    requires FreeOf(a, w) && EndsAtEdge(a) && Solid(w)
    ensures First(a + (w + b), w) == |a|
  {
    var s := a + (w + b);
    assert (w + b)[0..|w|] == w;
    WordInSecond(a, w + b, 0, w);
    forall i: nat | i < |a|
      ensures !WordAt(s, i, w)
    {
      if i + |w| <= |a| {
        WordInFirst(a, w + b, i, w);
      } else if WordAt(s, i, w) {
        StraddlingWord(a, w + b, i, w);
      }
    }
    FirstIs(s, |a|, w);
  }

  // ----- unions -----

  /** The two halves of a union, and whether it keeps duplicates. */
  function ReadUnion(s: string): Result<(string, bool, string)> {
    var i := First(s, "UNION");
    if i == 0 || i + 5 > |s| then Failure
    else
      var behind := s[i + 5..];
      if " ALL " <= behind then Success((s[..i - 1], true, behind[5..]))
      else if " " <= behind then Success((s[..i - 1], false, behind[1..]))
      else Failure
  }

  /** The text of a union is read back: its halves, and ALL exactly if it was asked for. */
  lemma UnionReadBack(st1: Statement, k1: nat, all: bool, st2: Statement, k2: nat)
    requires WellFormedStatement(st1) && WithoutUnion(st1) && st2.parts.Select?
    ensures ReadUnion(TextOf(UnionPieces(st1, k1, all, st2, k2)))
      == Success((TextOf(Pieces(st1, k1)), all, TextOf(Pieces(st2, k2))))
  {
    hide TextOf, Pieces, UnionPieces, FreeOf, UnionFree, WellFormedStatement, WithoutUnion;
    var a, b := TextOf(Pieces(st1, k1)), TextOf(Pieces(st2, k2));
    TextOfUnion(st1, k1, all, st2, k2);
    WordOfUnion(all);
    TextUnionFree(st1, k1);
    UnionFreeIs(a);
    SelectStarts(st2, k2);
    HalvesReadBack(a, all, b);
  }

  lemma SelectStarts(st: Statement, k: nat)
    requires st.parts.Select?
    ensures "SELECT " <= TextOf(Pieces(st, k))
  {
    hide TextOf, JoinPieces, WherePieces, JoinValues, SelectTail;
    var joins := TextOf(JoinPieces(st.parts.joins, k));
    var where := TextOf(WherePieces(st.where, k + |JoinValues(st.parts.joins)|));
    var head := SelectHead(st.parts, st.table);
    TextOfSelect(st, k, head + joins, head + joins + where);
    assert "SELECT " <= head by { HeadStarts(st); }
  }

  lemma HeadStarts(st: Statement)
    requires st.parts.Select?
    ensures "SELECT " <= SelectHead(st.parts, st.table)
  {
  }

  lemma BlankEnds(a: string)
    ensures EndsAtEdge(a + " ") && StartsAtEdge(" ")
  {
  }

  lemma UnionFound(a: string, behind: string)
    requires FreeOf(a, "UNION")
    ensures First((a + " ") + ("UNION" + behind), "UNION") == |a| + 1
  {
    hide First, FreeOf, EndsAtEdge, StartsAtEdge;
    UnionSolid();
    BlankEnds(a);
    LetterMissing(" ", "UNION");
    WordGlue(a, " ", "UNION");
    FirstBehind(a + " ", "UNION", behind);
  }

  lemma HalvesReadBack(a: string, all: bool, b: string)
    requires FreeOf(a, "UNION") && "SELECT " <= b
    ensures ReadUnion(a + (if all then " UNION ALL " else " UNION ") + b) == Success((a, all, b))
  {
    if all {
      AllReadBack(a, b);
    } else {
      DistinctReadBack(a, b);
    }
  }

  lemma AllReadBack(a: string, b: string)
    requires FreeOf(a, "UNION")
    ensures ReadUnion(a + " UNION ALL " + b) == Success((a, true, b))
  {
    hide First, FreeOf;
    var behind := " ALL " + b;
    var s := (a + " ") + ("UNION" + behind);
    assert " UNION ALL " == " " + "UNION" + " ALL ";
    assert a + " UNION ALL " + b == s;
    UnionFound(a, behind);
    assert s[|a| + 1 + 5..] == behind && s[..|a|] == a && behind[5..] == b;
  }

  lemma DistinctReadBack(a: string, b: string)
    requires FreeOf(a, "UNION") && "SELECT " <= b
    ensures ReadUnion(a + " UNION " + b) == Success((a, false, b))
  {
    hide First, FreeOf;
    var behind := " " + b;
    var s := (a + " ") + ("UNION" + behind);
    assert " UNION " == " " + "UNION" + " ";
    assert a + " UNION " + b == s;
    UnionFound(a, behind);
    assert s[|a| + 1 + 5..] == behind && s[..|a|] == a && behind[1..] == b;
    assert behind[1] == 'S';
  }

  // ----- joins -----

  predicate EndsWith(s: string, end: string) {
    |end| <= |s| && forall i :: 0 <= i < |end| ==> s[|s| - |end| + i] == end[i]
  }

  /** How SQL-92 (section 7.5, <joined table>) writes the kind of a join in front of the word JOIN. */
  function KindBefore(s: string): Result<JoinType> {
    if EndsWith(s, " INNER ") then Success(InnerJoin)
    else if EndsWith(s, " CROSS ") then Success(CrossJoin)
    else if EndsWith(s, " LEFT OUTER ") then Success(LeftOuterJoin)
    else if EndsWith(s, " RIGHT OUTER ") then Success(RightOuterJoin)
    else if EndsWith(s, " FULL OUTER ") then Success(FullOuterJoin)
    else Failure
  }

  /** The table between JOIN and ON. */
  function TableBehind(s: string): string {
    var t := if s == "" then s else s[1..];
    t[..First(t, " ON ")]
  }

  /** The joins of a statement text: the kind and the table of each. */
  function ReadJoins(s: string): seq<(Result<JoinType>, string)>
    decreases |s|
  {
    var i := First(s, "JOIN");
    if i + 4 > |s| then []
    else [(KindBefore(s[..i]), TableBehind(s[i + 4..]))] + ReadJoins(s[i + 4..])
  }

  function JoinsOf(joins: seq<JoinInfo>): seq<(Result<JoinType>, string)> {
    if joins == [] then [] else [(Success(joins[0].kind), joins[0].table)] + JoinsOf(joins[1..])
  }

  lemma EndsWithItself(f: string, end: string)
    ensures EndsWith(f + end, end)
  {
  }

  lemma EndsOtherwise(f: string, end: string, other: string, i: nat)
    requires i < |other| <= |end| && end[|end| - |other| + i] != other[i]
    ensures !EndsWith(f + end, other)
  {
    var s := f + end;
    assert s[|s| - |other| + i] == end[|end| - |other| + i];
  }

  lemma KindRead(f: string, kind: JoinType)
    ensures KindBefore(f + LeadOf(kind)) == Success(kind)
  {
    hide KindBefore;
    match kind
    case InnerJoin => InnerRead(f);
    case CrossJoin => CrossRead(f);
    case LeftOuterJoin => LeftRead(f);
    case RightOuterJoin => RightRead(f);
    case FullOuterJoin => FullRead(f);
  }

  lemma InnerRead(f: string)
    ensures KindBefore(f + " INNER ") == Success(InnerJoin)
  {
    hide EndsWith;
    EndsWithItself(f, " INNER ");
  }

  lemma CrossRead(f: string)
    ensures KindBefore(f + " CROSS ") == Success(CrossJoin)
  {
    hide EndsWith;
    EndsWithItself(f, " CROSS ");
    EndsOtherwise(f, " CROSS ", " INNER ", 1);
  }

  lemma LeftRead(f: string)
    ensures KindBefore(f + " LEFT OUTER ") == Success(LeftOuterJoin)
  {
    hide EndsWith;
    EndsWithItself(f, " LEFT OUTER ");
    EndsOtherwise(f, " LEFT OUTER ", " INNER ", 1);
    EndsOtherwise(f, " LEFT OUTER ", " CROSS ", 1);
  }

  lemma RightRead(f: string)
    ensures KindBefore(f + " RIGHT OUTER ") == Success(RightOuterJoin)
  {
    hide EndsWith;
    EndsWithItself(f, " RIGHT OUTER ");
    EndsOtherwise(f, " RIGHT OUTER ", " INNER ", 1);
    EndsOtherwise(f, " RIGHT OUTER ", " CROSS ", 1);
    EndsOtherwise(f, " RIGHT OUTER ", " LEFT OUTER ", 0);
  }

  lemma FullRead(f: string)
    ensures KindBefore(f + " FULL OUTER ") == Success(FullOuterJoin)
  {
    hide EndsWith;
    EndsWithItself(f, " FULL OUTER ");
    EndsOtherwise(f, " FULL OUTER ", " INNER ", 1);
    EndsOtherwise(f, " FULL OUTER ", " CROSS ", 1);
    EndsOtherwise(f, " FULL OUTER ", " LEFT OUTER ", 1);
    FullIsNotRight(f);
  }

  lemma FullIsNotRight(f: string)
    ensures !EndsWith(f + " FULL OUTER ", " RIGHT OUTER ")
  {
    var s := f + " FULL OUTER ";
    assert s[|s| - 13 + 5] == 'L' && " RIGHT OUTER "[5] == 'T';
  }

  function LeadOf(kind: JoinType): string {
    match kind
    case InnerJoin => " INNER "
    case CrossJoin => " CROSS "
    case LeftOuterJoin => " LEFT OUTER "
    case RightOuterJoin => " RIGHT OUTER "
    case FullOuterJoin => " FULL OUTER "
  }

  lemma JoinWordSplit(kind: JoinType)
    ensures JoinWord(kind) == LeadOf(kind) + ("JOIN" + " ")
  {
    assert "JOIN" + " " == "JOIN ";
    match kind
    case InnerJoin => assert " INNER " + "JOIN " == " INNER JOIN ";
    case CrossJoin => assert " CROSS " + "JOIN " == " CROSS JOIN ";
    case LeftOuterJoin => assert " LEFT OUTER " + "JOIN " == " LEFT OUTER JOIN ";
    case RightOuterJoin => assert " RIGHT OUTER " + "JOIN " == " RIGHT OUTER JOIN ";
    case FullOuterJoin => assert " FULL OUTER " + "JOIN " == " FULL OUTER JOIN ";
  }

  lemma LeadEdges(kind: JoinType)
    ensures var s := LeadOf(kind); StartsAtEdge(s) && EndsAtEdge(s) && FreeOf(s, "JOIN")
  {
    LetterMissing(LeadOf(kind), "JOIN");
  }

  /** A table name that can be told from the ON behind it. */
  ghost predicate Tellable(table: string) {
    FreeOf(table, "JOIN") && FreeOf(table + " ", " ON ")
  }

  lemma LetterAt(s: string, i: nat, w: string, j: nat)
    requires WordAt(s, i, w) && j < |w|
    ensures s[i + j] == w[j]
  {
    assert s[i..i + |w|][j] == s[i + j];
  }

  lemma TableRead(table: string, rest: string)
    requires Tellable(table)
    ensures TableBehind(" " + (table + " ON " + rest)) == table
  {
    var w := " ON ";
    var s := table + w + rest;
    assert s == table + (w + rest) && (w + rest)[0..4] == w;
    WordInSecond(table, w + rest, 0, w);
    forall i: nat | i < |table|
      ensures !WordAt(s, i, w)
    {
      if i + 4 <= |table| + 1 {
        assert s == (table + " ") + ("ON " + rest) by {
          assert w == " " + "ON ";
        }
        WordInFirst(table + " ", "ON " + rest, i, w);
      } else if WordAt(s, i, w) {
        LetterAt(s, i, w, |table| - i);
      }
    }
    FirstIs(s, |table|, w);
    assert (" " + s)[1..] == s && s[..|table|] == table;
  }

  /** The caller's texts of a statement, and the tables of its joins, can be told from the words of a join. */
  ghost predicate JoinsTellable(st: Statement)
    requires st.parts.Select?
  {
    (forall t <- CallerTexts(st) :: FreeOf(t, "JOIN")) && forall j <- st.parts.joins :: Tellable(j.table)
  }

  lemma {:induction false} TokensMute(ts: seq<Token>)
    ensures Mute(SegmentsOf(ts))
  {
    if ts != [] {
      TokensMute(ts[1..]);
      var t := ts[0];
      match t
      case Connective(op) =>
      case Compare(op) =>
      case _ =>
    }
  }

  /** Segments without the word in what the caller gave. */
  lemma MuteFree(gs: seq<Segment>)
    requires Sound(gs) && Mute(gs) && forall t <- Givens(gs) :: FreeOf(t, "JOIN")
    ensures FreeOf(Spelled(gs), "JOIN")
  {
    hide FreeOf, Spaced, Spelled, Givens;
    forall g <- gs
      ensures FreeOf(g.text, "JOIN")
    {
      assert Proper(g);
      if g.Given? {
        GivenIn(gs, g);
      } else {
        LetterMissing(g.text, "JOIN");
      }
    }
    UnionSolid();
    SpelledFree(gs, "JOIN");
  }

  lemma ConditionFree(c: Condition, k: nat)
    requires WellFormed(c) && forall t <- ConditionTexts(c) :: FreeOf(t, "JOIN")
    ensures FreeOf(Render(Printed(c, k)), "JOIN")
  {
    hide FreeOf, Sound, Mute, Spelled, Givens, SegmentsOf;
    ConditionReads(c, k);
    TokensMute(Printed(c, k));
    MuteFree(SegmentsOf(Printed(c, k)));
  }

  /** One join, behind text without the word JOIN. */
  lemma OneJoinRead(f: string, kind: JoinType, table: string, behind: string)
    requires FreeOf(f, "JOIN") && Tellable(table)
    ensures var rest := " " + (table + " ON " + behind);
      ReadJoins(f + (JoinWord(kind) + table + " ON " + behind)) == [(Success(kind), table)] + ReadJoins(rest)
  {
    hide First, FreeOf, WordAt, KindBefore, TableBehind, Tellable, JoinWord, LeadOf, StartsAtEdge, EndsAtEdge;
    var lead, rest := LeadOf(kind), " " + (table + " ON " + behind);
    var s := f + (JoinWord(kind) + table + " ON " + behind);
    JoinWordSplit(kind);
    LeadEdges(kind);
    UnionSolid();
    WordGlue(f, lead, "JOIN");
    AssembledJoin(f, lead, table, behind);
    assert EndsAtEdge(f + lead) by { EdgeStays(f, lead); }
    FirstBehind(f + lead, "JOIN", rest);
    KindRead(f, kind);
    TableRead(table, behind);
    assert s[..|f + lead|] == f + lead && s[|f + lead| + 4..] == rest;
  }

  lemma EdgeStays(f: string, lead: string)
    requires EndsAtEdge(lead)
    ensures EndsAtEdge(f + lead)
  {
  }

  lemma AssembledJoin(f: string, lead: string, table: string, behind: string)
    ensures f + (lead + ("JOIN" + " ") + table + " ON " + behind) == f + lead + ("JOIN" + (" " + (table + " ON " + behind)))
  {
    var on := " ON ";
    Assoc(f, lead, "JOIN" + (" " + (table + on + behind)));
    assert lead + ("JOIN" + " ") + table + on + behind == lead + ("JOIN" + (" " + (table + on + behind)));
  }

  /** A text that starts at an edge is still free of the word behind one that is. */
  lemma FreeTogether(f: string, tail: string)
    requires FreeOf(f, "JOIN") && FreeOf(tail, "JOIN") && (tail == "" || StartsAtEdge(tail))
    ensures FreeOf(f + tail, "JOIN")
  {
    if tail == "" {
      assert f + tail == f;
    } else {
      UnionSolid();
      WordGlue(f, tail, "JOIN");
    }
  }

  /** Behind a text without joins and in front of one, all joins are read. */
  lemma {:induction false} JoinsRead(f: string, joins: seq<JoinInfo>, k: nat, tail: string)
    requires FreeOf(f, "JOIN") && FreeOf(tail, "JOIN") && (tail == "" || StartsAtEdge(tail))
    requires forall j <- joins :: WellFormed(j.condition) && Tellable(j.table)
    requires forall j <- joins :: forall t <- ConditionTexts(j.condition) :: FreeOf(t, "JOIN")
    ensures ReadJoins(f + (TextOf(JoinPieces(joins, k)) + tail)) == JoinsOf(joins)
    decreases |joins|
  {
    hide First, FreeOf, TextOf, JoinPieces, Render, Printed, Values, Tellable, WellFormed, ConditionTexts, KindBefore,
         TableBehind, StartsAtEdge, JoinWord, ReadJoins;
    if joins == [] {
      NoJoins(k);
      FreeTogether(f, tail);
      assert "" + tail == tail;
      NothingToRead(f + tail);
    } else {
      var j, rest := joins[0], joins[1..];
      var on := Render(Printed(j.condition, k));
      var more := TextOf(JoinPieces(rest, k + |Values(j.condition)|)) + tail;
      assert joins == [j] + rest;
      assert j in joins && forall x <- rest :: x in joins;
      TextOfJoin(j, rest, k);
      ConditionFree(j.condition, k);
      OneJoinRead(f, j.kind, j.table, on + more);
      ClauseAssembled(j, on, TextOf(JoinPieces(rest, k + |Values(j.condition)|)), tail);
      BetweenFree(j.table, on);
      JoinsRead(" " + j.table + " ON " + on, rest, k + |Values(j.condition)|, tail);
      assert " " + (j.table + " ON " + (on + more)) == " " + j.table + " ON " + on + more by {
        Shuffled(" ", j.table, " ON ", on, more);
      }
    }
  }

  lemma Shuffled(a: string, b: string, c: string, d: string, e: string)
    ensures a + (b + c + (d + e)) == a + b + c + d + e
  {
    Assoc(b + c, d, e);
    Assoc(a, b + c + d, e);
    Assoc(a, b + c, d);
    Assoc(a, b, c);
  }

  lemma NothingToRead(s: string)
    requires FreeOf(s, "JOIN")
    ensures ReadJoins(s) == []
  {
    hide First;
    NoFirst(s, "JOIN");
  }

  lemma ClauseAssembled(j: JoinInfo, on: string, rest: string, tail: string)
    ensures JoinHead(j) + on + rest + tail == JoinWord(j.kind) + j.table + " ON " + (on + (rest + tail))
  {
    hide JoinWord;
    Assoc(JoinHead(j) + on, rest, tail);
    Assoc(JoinHead(j), on, rest + tail);
  }

  lemma BetweenFree(table: string, on: string)
    requires Tellable(table) && FreeOf(on, "JOIN")
    ensures FreeOf(" " + table + " ON " + on, "JOIN")
  {
    hide FreeOf;
    UnionSolid();
    LetterMissing(" ", "JOIN");
    LetterMissing(" ON ", "JOIN");
    WordGlue(" ", table, "JOIN");
    WordGlue(" " + table, " ON ", "JOIN");
    WordGlue(" " + table + " ON ", on, "JOIN");
  }

  /** Where the texts of the caller stand. */
  lemma TextsInside(st: Statement)
    requires st.parts.Select? && JoinsTellable(st)
    ensures
      forall t <- NameIf(st.parts.distinctOn) + ColumnGivens(st.parts.columns) + NameIf(st.table) :: FreeOf(t, "JOIN")
    ensures forall t <- JoinsTexts(st.parts.joins) :: FreeOf(t, "JOIN")
    ensures forall t <- WhereTexts(st.where) :: FreeOf(t, "JOIN")
    ensures forall t <- st.parts.groupColumns + SortNames(st.parts.sortColumns) + st.parts.lockTables :: FreeOf(t, "JOIN")
  {
    hide FreeOf, NameIf, ColumnGivens, JoinsTexts, WhereTexts, SortNames, Tellable;
    var a := NameIf(st.parts.distinctOn) + ColumnGivens(st.parts.columns) + NameIf(st.table);
    var b, c := JoinsTexts(st.parts.joins), WhereTexts(st.where);
    var d := st.parts.groupColumns + SortNames(st.parts.sortColumns) + st.parts.lockTables;
    assert CallerTexts(st) == a + b + c + d;
    InFour(a, b, c, d);
  }

  lemma InFour(a: seq<string>, b: seq<string>, c: seq<string>, d: seq<string>)
    ensures forall t :: (t in a + b + c + d <==> t in a || t in b || t in c || t in d)
  {
  }

  lemma {:induction false} ConditionTextsIn(joins: seq<JoinInfo>, j: JoinInfo, t: string)
    requires j in joins && t in ConditionTexts(j.condition)
    ensures t in JoinsTexts(joins)
  {
    hide ConditionTexts;
    if j != joins[0] {
      assert j in joins[1..];
      ConditionTextsIn(joins[1..], j, t);
    }
  }

  lemma OpensText(a: seq<Segment>, b: seq<Segment>)
    requires Opens(a) && Opens(b)
    ensures Spelled(a + b) == "" || StartsAtEdge(Spelled(a + b))
  {
    if a == [] {
      assert a + b == b;
    }
  }

  lemma WhereMute(where: Condition, k: nat)
    ensures Mute(WhereSegments(where, k))
  {
    TokensMute(Printed(where, k));
  }

  /** What stands behind the joins. */
  lemma BehindJoins(st: Statement, k: nat)
    requires st.parts.Select? && WellFormedStatement(st) && JoinsTellable(st)
    ensures var s := TextOf(WherePieces(st.where, k)) + SelectTail(st.parts);
      FreeOf(s, "JOIN") && (s == "" || StartsAtEdge(s))
  {
    hide FreeOf, TextOf, WherePieces, SelectTail, JoinsTellable, WellFormed, SortNames, TailSegments, WhereSegments,
         Sound, Mute, Spelled, Givens, StartsAtEdge, Opens, WhereTexts;
    var a, b := WhereSegments(st.where, k), TailSegments(st.parts);
    TextsInside(st);
    WhereReads(st.where, k);
    WhereMute(st.where, k);
    TailPlain(st.parts);
    MuteFree(a);
    MuteFree(b);
    OpensText(a, b);
    SpelledConcat(a, b);
    OpensText(b, []);
    assert b + [] == b;
    FreeTogether(Spelled(a), Spelled(b));
  }

  /** The text of a SELECT is read back: kind and table of every join, in order. */
  lemma JoinsReadBack(st: Statement, k: nat)
    requires st.parts.Select? && WellFormedStatement(st) && JoinsTellable(st)
    ensures ReadJoins(TextOf(Pieces(st, k))) == JoinsOf(st.parts.joins)
  {
    hide FreeOf, TextOf, Pieces, JoinPieces, WherePieces, SelectHead, SelectTail, Tellable, WellFormed, ConditionTexts,
         ColumnGivens, SortNames, ReadJoins, HeadSegments, JoinsTexts, WhereTexts, NameIf, Sound, Mute, Spelled, Givens,
         StartsAtEdge, JoinsOf, JoinValues;
    var joins := st.parts.joins;
    var k' := k + |JoinValues(joins)|;
    var head, where, end := SelectHead(st.parts, st.table), TextOf(WherePieces(st.where, k')), SelectTail(st.parts);
    TextsInside(st);
    HeadPlain(st.parts, st.table);
    MuteFree(HeadSegments(st.parts, st.table));
    BehindJoins(st, k');
    forall j <- joins, t <- ConditionTexts(j.condition)
      ensures FreeOf(t, "JOIN")
    {
      ConditionTextsIn(joins, j, t);
    }
    JoinsRead(head, joins, k, where + end);
    TextOfSelect(st, k, head + TextOf(JoinPieces(joins, k)), head + TextOf(JoinPieces(joins, k)) + where);
    Regrouped4(head, TextOf(JoinPieces(joins, k)), where, end);
  }

  lemma Regrouped4(a: string, b: string, c: string, d: string)
    ensures a + b + c + d == a + (b + (c + d))
  {
    Assoc(a + b, c, d);
    Assoc(a, b, c + d);
  }
}
