/** The few `QString` operations the statement text is built with. */
module QtText {

  function LowerChar(c: char): char {
    if 'A' <= c <= 'Z' then c - 'A' + 'a' else c
  }

  function Lower(s: string): (r: string)
    ensures |r| == |s|
    ensures forall i :: 0 <= i < |s| ==> r[i] == LowerChar(s[i])
  {
    seq(|s|, i requires 0 <= i < |s| => LowerChar(s[i]))
  }

  function Join(parts: seq<string>, separator: string): string {
    if parts == [] then ""
    else if |parts| == 1 then parts[0]
    else parts[0] + separator + Join(parts[1..], separator)
  }

  predicate IsSpace(c: char) {
    c == ' ' || '\t' <= c <= '\r'
  }

  function TrimLeft(s: string): string {
    if s != "" && IsSpace(s[0]) then TrimLeft(s[1..]) else s
  }

  function TrimRight(s: string): string {
    if s != "" && IsSpace(s[|s| - 1]) then TrimRight(s[..|s| - 1]) else s
  }

  function Trimmed(s: string): string {
    TrimRight(TrimLeft(s))
  }

  /** Lower-casing maps the letters A to Z to a to z and keeps all else. */
  lemma LowerExact(s: string)
    ensures forall i :: 0 <= i < |s| ==>
      Lower(s)[i] == if s[i] in "ABCDEFGHIJKLMNOPQRSTUVWXYZ" then (s[i] as int + 32) as char else s[i]
  {
    forall i | 0 <= i < |s|
      ensures s[i] in "ABCDEFGHIJKLMNOPQRSTUVWXYZ" <==> 'A' <= s[i] <= 'Z'
    {
      LetterIs(s[i]);
    }
  }

  lemma LetterIs(c: char)
    ensures c in "ABCDEFGHIJKLMNOPQRSTUVWXYZ" <==> 'A' <= c <= 'Z'
  {
    var letters := "ABCDEFGHIJKLMNOPQRSTUVWXYZ";
    if 'A' <= c <= 'Z' {
      assert letters[c as int - 65] == c;
    }
  }

  /** Blanks, tabs and line breaks. */
  ghost predicate Blanks(s: string) {
    forall c <- s :: c in {' ', '\t', '\n', '\U{000B}', '\U{000C}', '\r'}
  }

  /** A text that neither starts nor ends with a blank. */
  ghost predicate Neat(s: string) {
    s != "" ==> !Blanks([s[0]]) && !Blanks([s[|s| - 1]])
  }

  lemma BlankIsSpace(c: char)
    ensures Blanks([c]) <==> IsSpace(c)
  {
    assert c in [c] && forall x <- [c] :: x == c;
  }

  lemma {:induction false} TrimLeftSplit(s: string) returns (l: string)
    ensures Blanks(l) && s == l + TrimLeft(s)
    ensures TrimLeft(s) != "" ==> !Blanks([TrimLeft(s)[0]])
  {
    l := "";
    if s != "" {
      BlankIsSpace(s[0]);
      if IsSpace(s[0]) {
        var rest := TrimLeftSplit(s[1..]);
        l := [s[0]] + rest;
        assert [s[0]][0] == s[0] && s == [s[0]] + s[1..];
      }
    }
  }

  lemma {:induction false} TrimRightSplit(s: string) returns (r: string)
    ensures Blanks(r) && s == TrimRight(s) + r
    ensures TrimRight(s) != "" ==> !Blanks([TrimRight(s)[|TrimRight(s)| - 1]])
  {
    r := "";
    if s != "" {
      var last := s[|s| - 1];
      BlankIsSpace(last);
      if IsSpace(last) {
        var rest := TrimRightSplit(s[..|s| - 1]);
        r := rest + [last];
        assert [last][0] == last && s == s[..|s| - 1] + [last];
      }
    }
  }

  /** Trimming takes blanks, tabs and line breaks from both ends, all of them and nothing else. */
  lemma TrimmedSplit(s: string) returns (l: string, r: string)
    ensures Blanks(l) && Blanks(r) && s == l + Trimmed(s) + r && Neat(Trimmed(s))
  {
    l := TrimLeftSplit(s);
    r := TrimRightSplit(TrimLeft(s));
    var t := TrimLeft(s);
    assert t == Trimmed(s) + r;
    assert Trimmed(s) != "" ==> Trimmed(s)[0] == t[0];
    assert s == l + (Trimmed(s) + r);
  }

  lemma {:induction false} TrimLeftBlanks(l: string, t: string)
    requires Blanks(l) && (t != "" ==> !Blanks([t[0]]))
    ensures TrimLeft(l + t) == t
  {
    if l == "" {
      assert l + t == t;
      if t != "" {
        BlankIsSpace(t[0]);
      }
    } else {
      assert (l + t)[1..] == l[1..] + t && l[0] in l;
      BlankIsSpace(l[0]);
      assert forall c <- l[1..] :: c in l;
      TrimLeftBlanks(l[1..], t);
    }
  }

  lemma {:induction false} TrimRightBlanks(t: string, r: string)
    requires Blanks(r) && (t != "" ==> !Blanks([t[|t| - 1]]))
    ensures TrimRight(t + r) == t
  {
    if r == "" {
      assert t + r == t;
      if t != "" {
        BlankIsSpace(t[|t| - 1]);
      }
    } else {
      var rest, last := r[..|r| - 1], r[|r| - 1];
      assert (t + r)[..|t + r| - 1] == t + rest && last in r && r == rest + [last];
      BlankIsSpace(last);
      assert forall c <- rest :: c in r;
      assert Blanks(rest);
      TrimRightBlanks(t, rest);
    }
  }

  lemma {:induction false} AllTrimmed(s: string)
    requires Blanks(s)
    ensures TrimLeft(s) == ""
  {
    if s != "" {
      assert s[0] in s;
      BlankIsSpace(s[0]);
      assert forall c <- s[1..] :: c in s;
      AllTrimmed(s[1..]);
    }
  }

  /** And so a neat text in the midst of blanks is what trimming leaves. */
  lemma TrimmedExact(l: string, t: string, r: string)
    requires Blanks(l) && Blanks(r) && Neat(t)
    ensures Trimmed(l + t + r) == t
  {
    assert l + t + r == l + (t + r);
    if t == "" {
      assert Blanks(l + r) by {
        assert forall c <- l + r :: c in l || c in r;
      }
      assert l + (t + r) == l + r;
      AllTrimmed(l + r);
    } else {
      assert (t + r)[0] == t[0];
      TrimLeftBlanks(l, t + r);
      TrimRightBlanks(t, r);
    }
  }
}
