/** Statement text as lexical tokens, and the lexer that reads the text back. */
module Tokens {
  import opened Conditions

  /** `Raw` is a stretch of statement text outside conditions. */
  datatype Token =
    | LParen | RParen
    | Connective(logic: LogicOperator)
    | Compare(op: CompareOperator)
    | Name(text: string)
    | Param(text: string)
    | NowCall | NullWord
    | Raw(text: string)

  function SpellLogic(op: LogicOperator): string {
    match op
    case And => " AND "
    case Or => " OR "
  }

  function SpellCompare(op: CompareOperator): string {
    match op
    case Equals => " = "
    case NotEquals => " <> "
    case Is => " IS "
    case IsNot => " IS NOT "
    case Less => " < "
    case LessOrEqual => " <= "
    case Greater => " > "
    case GreaterOrEqual => " >= "
    case Like => " LIKE "
  }

  function Spell(t: Token): string {
    match t
    case LParen => "("
    case RParen => ")"
    case Connective(op) => SpellLogic(op)
    case Compare(op) => SpellCompare(op)
    case Name(s) => s
    case Param(s) => s
    case NowCall => "now()"
    case NullWord => "NULL"
    case Raw(s) => s
  }

  function Render(ts: seq<Token>): string {
    if ts == [] then "" else Spell(ts[0]) + Render(ts[1..])
  }

  lemma {:induction false} RenderConcat(a: seq<Token>, b: seq<Token>)
    ensures Render(a + b) == Render(a) + Render(b)
  {
    if a == [] {
      assert a + b == b;
    } else {
      assert (a + b)[1..] == a[1..] + b;
      RenderConcat(a[1..], b);
    }
  }

  // ----- the lexer -----

  predicate Delimiter(c: char) {
    c == ' ' || c == '(' || c == ')'
  }

  predicate Word(s: string) {
    s != "" && forall i :: 0 <= i < |s| ==> !Delimiter(s[i])
  }

  /** The longest delimiter-free prefix. */
  function WordOf(s: string): (w: string)
    ensures w <= s
    ensures forall i :: 0 <= i < |w| ==> !Delimiter(w[i])
  {
    if s == "" || Delimiter(s[0]) then "" else [s[0]] + WordOf(s[1..])
  }

  predicate PlainName(s: string) {
    Word(s) && s[0] != ':' && s != "NULL" && s != "NOT"
  }

  /** Column texts that can be told from the rest of a condition: a plain word, or one wrapped in LOWER. */
  ghost predicate LexableName(s: string) {
    PlainName(s) || exists w :: Word(w) && s == LowerCall(w)
  }

  datatype Lexed = Lexed(token: Token, rest: string) | NoToken

  /** The order in which infix tokens are tried: IS NOT before IS. */
  function Rank(t: Token): nat
    requires t.Connective? || t.Compare?
  {
    match t
    case Connective(op) => if op == And then 0 else 1
    case Compare(op) =>
      match op
      case IsNot => 2 case Is => 3 case Equals => 4 case NotEquals => 5 case LessOrEqual => 6
      case Less => 7 case GreaterOrEqual => 8 case Greater => 9 case Like => 10
  }

  function Ranked(r: nat): (t: Token)
    requires r < 11
    ensures (t.Connective? || t.Compare?) && Rank(t) == r
  {
    match r
    case 0 => Connective(And)
    case 1 => Connective(Or)
    case 2 => Compare(IsNot)
    case 3 => Compare(Is)
    case 4 => Compare(Equals)
    case 5 => Compare(NotEquals)
    case 6 => Compare(LessOrEqual)
    case 7 => Compare(Less)
    case 8 => Compare(GreaterOrEqual)
    case 9 => Compare(Greater)
    case _ => Compare(Like)
  }

  /** How SQL writes them, whatever the printer's own tables say. */
  function SqlText(r: nat): string
    requires r < 11
  {
    match r
    case 0 => " AND "
    case 1 => " OR "
    case 2 => " IS NOT "
    case 3 => " IS "
    case 4 => " = "
    case 5 => " <> "
    case 6 => " <= "
    case 7 => " < "
    case 8 => " >= "
    case 9 => " > "
    case _ => " LIKE "
  }

  /** The first infix token, from rank `r` on, that the text starts with. */
  function LexInfix(s: string, r: nat): Lexed
    decreases 11 - r
  {
    if r >= 11 then NoToken
    else if SqlText(r) <= s then Lexed(Ranked(r), s[|SqlText(r)|..])
    else LexInfix(s, r + 1)
  }

  /** The rest of `LOWER( word ) ` after its opening. */
  function LexLowerCall(s: string): Lexed {
    var w := WordOf(s);
    if w != "" && " ) " <= s[|w|..] then Lexed(Name(LowerCall(w)), s[|w| + 3..]) else NoToken
  }

  function LexWord(s: string): Lexed {
    var w := WordOf(s);
    if w == "" then NoToken
    else if w[0] == ':' then Lexed(Param(w), s[|w|..])
    else if w == "NULL" then Lexed(NullWord, s[|w|..])
    else Lexed(Name(w), s[|w|..])
  }

  function LexOne(s: string): Lexed
    requires s != ""
  {
    if s[0] == '(' then Lexed(LParen, s[1..])
    else if s[0] == ')' then Lexed(RParen, s[1..])
    else if s[0] == ' ' then LexInfix(s, 0)
    else if "now()" <= s then Lexed(NowCall, s[5..])
    else if "LOWER( " <= s then LexLowerCall(s[7..])
    else LexWord(s)
  }

  datatype Result<T> = Success(value: T) | Failure

  function Lex(s: string): Result<seq<Token>>
    decreases |s|
  {
    if s == "" then Success([])
    else
      match LexOne(s)
      case NoToken => Failure
      case Lexed(t, rest) =>
        if |rest| >= |s| then Failure
        else
          match Lex(rest)
          case Failure => Failure
          case Success(ts) => Success([t] + ts)
  }

  // ----- the lexer reads back what was rendered -----

  ghost predicate Lexable(t: Token) {
    match t
    case Name(s) => LexableName(s)
    case Param(s) => Word(s) && s[0] == ':'
    case Raw(_) => false
    case _ => true
  }

  predicate Operand(t: Token) {
    t.Name? || t.Param? || t.NowCall? || t.NullWord?
  }

  predicate Separator(t: Token) {
    t.RParen? || t.Connective? || t.Compare?
  }

  /** Lexable tokens, where each operand is followed by a closing or an infix token. */
  ghost predicate LexableSeq(ts: seq<Token>) {
    && (forall i :: 0 <= i < |ts| ==> Lexable(ts[i]))
    && (forall i :: 0 <= i < |ts| - 1 && Operand(ts[i]) ==> Separator(ts[i + 1]))
  }

  predicate EndsWord(rest: string) {
    rest == "" || rest[0] == ' ' || rest[0] == ')'
  }

  lemma {:induction false} WordOfPrefix(w: string, rest: string)
    requires forall i :: 0 <= i < |w| ==> !Delimiter(w[i])
    requires EndsWord(rest)
    ensures WordOf(w + rest) == w
  {
    if w == "" {
      assert w + rest == rest;
    } else {
      assert (w + rest)[1..] == w[1..] + rest;
      WordOfPrefix(w[1..], rest);
    }
  }

  /** No operator is spelled like the start of another, except that IS starts IS NOT. */
  lemma SpellingsDiffer(a: Token, b: Token, s: string)
    requires (a.Connective? || a.Compare?) && (b.Connective? || b.Compare?)
    requires Spell(a) <= s && Spell(b) <= s
    ensures a == b || {a, b} == {Compare(Is), Compare(IsNot)}
  {
    assert s[1] == Spell(a)[1] == Spell(b)[1];
    assert s[2] == Spell(a)[2] == Spell(b)[2];
  }

  lemma SpelledAsSql(r: nat)
    requires r < 11
    ensures Spell(Ranked(r)) == SqlText(r)
  {
  }

  lemma {:induction false} LexInfixFinds(s: string, t: Token, r: nat)
    requires t.Connective? || t.Compare?
    requires r <= Rank(t) && Spell(t) <= s
    requires t == Compare(Is) ==> !(Spell(Compare(IsNot)) <= s)
    ensures LexInfix(s, r) == Lexed(t, s[|Spell(t)|..])
    decreases Rank(t) - r
  {
    hide SpellCompare, SpellLogic, SqlText;
    SpelledAsSql(r);
    if Spell(Ranked(r)) <= s {
      SpellingsDiffer(Ranked(r), t, s);
    }
    if r < Rank(t) {
      LexInfixFinds(s, t, r + 1);
    }
  }

  lemma LexOneInfix(t: Token, rest: string)
    requires t.Connective? || t.Compare?
    requires t == Compare(Is) ==> !("NOT " <= rest)
    ensures LexOne(Spell(t) + rest) == Lexed(t, rest)
  {
    var s := Spell(t) + rest;
    assert s[|Spell(t)|..] == rest;
    assert s[0] == ' ';
    if t == Compare(Is) {
      IsThenNot(rest);
    }
    LexInfixFinds(s, t, 0);
  }

  lemma IsThenNot(rest: string)
    ensures Spell(Compare(IsNot)) <= Spell(Compare(Is)) + rest ==> "NOT " <= rest
  {
    assert " IS NOT " == " IS " + "NOT ";
    assert (" IS " + rest)[4..] == rest && (" IS " + "NOT ")[4..] == "NOT ";
  }

  lemma LexOneName(name: string, rest: string)
    requires LexableName(name) && EndsWord(rest)
    ensures LexOne(name + rest) == Lexed(Name(name), rest)
  {
    if PlainName(name) {
      LexPlainName(name, rest);
    } else {
      var w :| Word(w) && name == LowerCall(w);
      LexLowerName(w, rest);
    }
  }

  lemma LexPlainName(name: string, rest: string)
    requires PlainName(name) && EndsWord(rest)
    ensures LexOne(name + rest) == Lexed(Name(name), rest)
  {
    var s := name + rest;
    WordOfPrefix(name, rest);
    assert s[|name|..] == rest && s[0] == name[0];
    assert !("now()" <= s) by {
      NoCall(name, rest, "now");
      assert "now()"[..4] == "now" + "(";
    }
    assert !("LOWER( " <= s) by {
      NoCall(name, rest, "LOWER");
      assert "LOWER( "[..6] == "LOWER" + "(";
    }
  }

  lemma LexLowerName(w: string, rest: string)
    requires Word(w)
    ensures LexOne(LowerCall(w) + rest) == Lexed(Name(LowerCall(w)), rest)
  {
    hide LowerCall;
    var tail := " ) " + rest;
    var s := LowerCall(w) + rest;
    LowerCallSplit(w, rest);
    WordOfPrefix(w, tail);
    assert (w + tail)[|w|..] == tail;
    assert (w + tail)[|w| + 3..] == rest;
    assert s[0] == 'L';
  }

  lemma LowerCallSplit(w: string, rest: string)
    ensures var s := LowerCall(w) + rest;
      s == "LOWER( " + (w + (" ) " + rest)) && s[7..] == w + (" ) " + rest)
  {
  }

  /** A word followed by a blank, a closing parenthesis or nothing does not start with `p(`. */
  lemma NoCall(w: string, rest: string, p: string)
    requires Word(w) && EndsWord(rest) && Word(p)
    ensures !(p + "(" <= w + rest)
  {
    var s, q := w + rest, p + "(";
    assert q[|p|] == '(';
    if |w| > |p| {
      assert s[|p|] == w[|p|];
    } else if rest != "" {
      assert s[|w|] == rest[0];
      assert |w| < |p| ==> q[|w|] == p[|w|];
    }
  }

  lemma LexOneParam(p: string, rest: string)
    requires Word(p) && p[0] == ':' && EndsWord(rest)
    ensures LexOne(p + rest) == Lexed(Param(p), rest)
  {
    var s := p + rest;
    assert s[0] == ':' && s[|p|..] == rest;
    WordOfPrefix(p, rest);
  }

  lemma LexOneKeyword(t: Token, rest: string)
    requires (t.NowCall? || t.NullWord?) && EndsWord(rest)
    ensures LexOne(Spell(t) + rest) == Lexed(t, rest)
  {
    var s := Spell(t) + rest;
    assert s[|Spell(t)|..] == rest;
    if t.NullWord? {
      WordOfPrefix("NULL", rest);
      assert s[0] == 'N';
    }
  }

  lemma LexOneParen(t: Token, rest: string)
    requires t.LParen? || t.RParen?
    ensures LexOne(Spell(t) + rest) == Lexed(t, rest)
  {
    var s := Spell(t) + rest;
    assert s[1..] == rest;
  }

  lemma SpellNotEmpty(t: Token)
    requires Lexable(t)
    ensures Spell(t) != ""
  {
  }

  lemma LexOneReads(t: Token, rest: string)
    requires Lexable(t)
    requires Operand(t) ==> EndsWord(rest)
    requires t == Compare(Is) ==> !("NOT " <= rest)
    ensures Spell(t) != "" && LexOne(Spell(t) + rest) == Lexed(t, rest)
  {
    hide LexOne, LexableName, EndsWord, SpellCompare, SpellLogic;
    SpellNotEmpty(t);
    match t
    case LParen => LexOneParen(t, rest);
    case RParen => LexOneParen(t, rest);
    case Connective(_) => LexOneInfix(t, rest);
    case Compare(_) => LexOneInfix(t, rest);
    case Name(name) => LexOneName(name, rest);
    case Param(p) => LexOneParam(p, rest);
    case _ => LexOneKeyword(t, rest);
  }

  /** What follows an operator is never taken for the NOT of IS NOT. */
  lemma NotNot(t: Token, rest: string)
    requires Lexable(t) && (Operand(t) ==> EndsWord(rest))
    ensures !("NOT " <= Spell(t) + rest)
  {
    var s := Spell(t) + rest;
    assert "NOT "[0] == 'N' && "NOT "[1] == 'O' && "NOT "[2] == 'T' && "NOT "[3] == ' ';
    assert s[0] == Spell(t)[0];
    match t
    case NullWord => assert s[1] == 'U';
    case _ =>
  }

  lemma {:induction false} LexReadsBack(ts: seq<Token>)
    requires LexableSeq(ts)
    ensures Lex(Render(ts)) == Success(ts)
  {
    if ts != [] {
      var t, rest := ts[0], Render(ts[1..]);
      LexReadsBack(ts[1..]);
      if |ts| > 1 {
        var rest2 := Render(ts[2..]);
        assert ts[1..][0] == ts[1] && ts[1..][1..] == ts[2..];
        assert rest == Spell(ts[1]) + rest2;
        FirstChar(ts[1..]);
        NotNot(ts[1], rest2);
      }
      FirstChar(ts);
      LexOneReads(t, rest);
      assert ts == [t] + ts[1..];
    }
  }

  lemma SeparatorStarts(t: Token, rest: string)
    ensures Separator(t) ==> EndsWord(Spell(t) + rest)
  {
  }

  /** After an operand the text goes on with a blank or a closing parenthesis. */
  lemma FirstChar(ts: seq<Token>)
    requires ts != [] && LexableSeq(ts)
    ensures Separator(ts[0]) ==> EndsWord(Render(ts))
    ensures Operand(ts[0]) ==> EndsWord(Render(ts[1..]))
  {
    hide Lexable, Word, LexableName;
    SeparatorStarts(ts[0], Render(ts[1..]));
    if |ts| > 1 {
      var t := ts[1..][0];
      assert Operand(ts[0]) ==> Separator(t);
      SeparatorStarts(t, Render(ts[1..][1..]));
    }
  }
}
