/** Text read character by character, and texts put together from segments with spaces or punctuation between them. */
module Segments {
  import opened Digits
  import opened Printing

  // ----- two readings of a text -----

  function DigitsOf(s: string): (d: string)
    ensures d <= s
  {
    if s != "" && '0' <= s[0] <= '9' then [s[0]] + DigitsOf(s[1..]) else ""
  }

  /** All numeric placeholders in a text: a colon and the digits behind it. */
  function Scan(s: string): seq<string>
    decreases |s|
  {
    if s == "" then []
    else
      var d := DigitsOf(s[1..]);
      if s[0] == ':' && d != "" then [":" + d] + Scan(s[1 + |d|..]) else Scan(s[1..])
  }

  predicate WordAt(s: string, i: nat, w: string) {
    i + |w| <= |s| && s[i..i + |w|] == w
  }

  /** The word stands nowhere in the text. */
  ghost predicate FreeOf(s: string, w: string) {
    forall i: nat :: !WordAt(s, i, w)
  }

  predicate UnionAt(s: string, i: nat) {
    i + 5 <= |s| && s[i] == 'U' && s[i + 1] == 'N' && s[i + 2] == 'I' && s[i + 3] == 'O' && s[i + 4] == 'N'
  }

  ghost predicate UnionFree(s: string) {
    forall i: nat :: !UnionAt(s, i)
  }

  lemma UnionFreeIs(s: string)
    ensures UnionFree(s) <==> FreeOf(s, "UNION")
  {
    forall i: nat
      ensures UnionAt(s, i) <==> WordAt(s, i, "UNION")
    {
      if WordAt(s, i, "UNION") {
        assert s[i..i + 5][0] == 'U' && s[i..i + 5][1] == 'N' && s[i..i + 5][2] == 'I' && s[i..i + 5][3] == 'O' && s[i..i + 5][4] == 'N';
      }
    }
  }

  lemma LetterMissing(s: string, w: string)
    requires w != "" && w[0] !in s
    ensures FreeOf(s, w)
  {
    forall i: nat
      ensures !WordAt(s, i, w)
    {
      if WordAt(s, i, w) {
        FirstLetter(s, i, w);
      }
    }
  }

  lemma FirstLetter(s: string, i: nat, w: string)
    requires WordAt(s, i, w) && w != ""
    ensures w[0] in s
  {
    assert s[i] == s[i..i + |w|][0] == w[0];
  }

  // ----- texts put together at spaces and punctuation -----

  predicate Edge(c: char) {
    c == ' ' || c == '(' || c == ')' || c == ',' || c == '"'
  }

  predicate StartsAtEdge(s: string) {
    s != "" && Edge(s[0])
  }

  predicate EndsAtEdge(s: string) {
    s != "" && Edge(s[|s| - 1])
  }

  lemma RestEnds(a: string, n: nat)
    requires n < |a| && EndsAtEdge(a)
    ensures EndsAtEdge(a[n..])
  {
    assert a[n..][|a| - n - 1] == a[|a| - 1];
  }

  lemma {:induction false} DigitsStop(a: string, b: string)
    requires StartsAtEdge(b) || EndsAtEdge(a)
    ensures DigitsOf(a + b) == DigitsOf(a)
  {
    hide StartsAtEdge, EndsAtEdge;
    if a == "" {
      assert a + b == b && !EndsAtEdge("") by { NoEdge(); }
      EdgeIsNoDigit(b);
    } else {
      assert (a + b)[0] == a[0] && (a + b)[1..] == a[1..] + b;
      if '0' <= a[0] <= '9' {
        if |a| > 1 {
          if EndsAtEdge(a) {
            RestEnds(a, 1);
          }
        } else {
          DigitIsNoEdge(a);
        }
        DigitsStop(a[1..], b);
      }
    }
  }

  lemma NoEdge()
    ensures !EndsAtEdge("")
  {
  }

  lemma EdgeIsNoDigit(b: string)
    requires StartsAtEdge(b)
    ensures DigitsOf(b) == ""
  {
  }

  lemma DigitIsNoEdge(a: string)
    requires |a| == 1 && ('0' <= a[0] <= '9' || a[0] == ':')
    ensures !EndsAtEdge(a)
  {
  }

  /** How far the first step of a scan goes. */
  function ScanLength(s: string): nat
    requires s != ""
    ensures 0 < ScanLength(s) <= |s|
  {
    var d := DigitsOf(s[1..]);
    if s[0] == ':' && d != "" then 1 + |d| else 1
  }

  lemma ScanFirst(s: string)
    requires s != ""
    ensures var n := ScanLength(s); Scan(s) == (if n > 1 then [s[..n]] else []) + Scan(s[n..])
  {
    var d := DigitsOf(s[1..]);
    if s[0] == ':' && d != "" {
      assert s[..1 + |d|] == ":" + d;
    }
  }

  lemma ScanLengthGlued(a: string, b: string)
    requires a != "" && (StartsAtEdge(b) || EndsAtEdge(a))
    ensures ScanLength(a + b) == ScanLength(a)
  {
    hide StartsAtEdge, EndsAtEdge;
    assert (a + b)[0] == a[0] && (a + b)[1..] == a[1..] + b;
    if a[0] == ':' {
      if |a| > 1 {
        if EndsAtEdge(a) {
          RestEnds(a, 1);
        }
      } else {
        DigitIsNoEdge(a);
      }
      DigitsStop(a[1..], b);
    }
  }

  lemma {:induction false} ScanGlue(a: string, b: string)
    requires StartsAtEdge(b) || EndsAtEdge(a)
    ensures Scan(a + b) == Scan(a) + Scan(b)
    decreases |a|
  {
    hide Scan, StartsAtEdge, EndsAtEdge, ScanLength;
    NothingScanned();
    if a == "" {
      assert a + b == b;
    } else {
      var n := ScanLength(a);
      ScanFirst(a);
      ScanFirst(a + b);
      ScanLengthGlued(a, b);
      assert (a + b)[..n] == a[..n] && (a + b)[n..] == a[n..] + b;
      if n == |a| {
        assert a[n..] == "" && a[n..] + b == b;
      } else {
        if EndsAtEdge(a) {
          RestEnds(a, n);
        }
        ScanGlue(a[n..], b);
      }
    }
  }

  /** A word without spaces and punctuation. */
  ghost predicate Solid(w: string) {
    w != "" && forall c <- w :: !Edge(c)
  }

  lemma WordInFirst(a: string, b: string, i: nat, w: string)
    requires i + |w| <= |a|
    ensures WordAt(a + b, i, w) <==> WordAt(a, i, w)
  {
    assert (a + b)[i..i + |w|] == a[i..i + |w|];
  }

  lemma WordInSecond(a: string, b: string, i: nat, w: string)
    ensures WordAt(a + b, |a| + i, w) <==> WordAt(b, i, w)
  {
    if i + |w| <= |b| {
      assert (a + b)[|a| + i..|a| + i + |w|] == b[i..i + |w|];
    }
  }

  lemma StraddlingWord(a: string, b: string, i: nat, w: string)
    requires WordAt(a + b, i, w) && i < |a| < i + |w| && Solid(w)
    ensures !EndsAtEdge(a) && !StartsAtEdge(b)
  {
    var s := a + b;
    assert w[|a| - 1 - i] == s[i..i + |w|][|a| - 1 - i] == s[|a| - 1] == a[|a| - 1];
    assert w[|a| - i] == s[i..i + |w|][|a| - i] == s[|a|] == b[0];
  }

  lemma WordGlue(a: string, b: string, w: string)
    requires StartsAtEdge(b) || EndsAtEdge(a)
    requires FreeOf(a, w) && FreeOf(b, w) && Solid(w)
    ensures FreeOf(a + b, w)
  {
    forall i: nat
      ensures !WordAt(a + b, i, w)
    {
      if i >= |a| {
        WordInSecond(a, b, i - |a|, w);
      } else if i + |w| <= |a| {
        WordInFirst(a, b, i, w);
      } else if WordAt(a + b, i, w) {
        StraddlingWord(a, b, i, w);
      }
    }
  }

  // ----- segments -----

  /** A stretch of statement text: the builder's own words, a text the caller gave, or a generated placeholder. */
  datatype Segment = Keyword(text: string) | Given(text: string) | Generated(text: string)

  function Spelled(gs: seq<Segment>): string {
    if gs == [] then "" else gs[0].text + Spelled(gs[1..])
  }

  /** Between any two segments there is a space or punctuation. */
  predicate Spaced(gs: seq<Segment>) {
    |gs| > 1 ==> (EndsAtEdge(gs[0].text) || StartsAtEdge(gs[1].text)) && Spaced(gs[1..])
  }

  predicate Opens(gs: seq<Segment>) {
    gs != [] ==> StartsAtEdge(gs[0].text)
  }

  predicate Closes(gs: seq<Segment>) {
    gs != [] && EndsAtEdge(gs[|gs| - 1].text)
  }

  lemma {:induction false} SpacedAppend(a: seq<Segment>, b: seq<Segment>)
    requires Spaced(a) && Spaced(b) && (Closes(a) || Opens(b))
    ensures Spaced(a + b)
  {
    if a == [] {
      assert a + b == b;
    } else {
      assert (a + b)[1..] == a[1..] + b;
      if |a| > 1 {
        SpacedAppend(a[1..], b);
      } else {
        assert a[1..] + b == b;
      }
    }
  }

  lemma {:induction false} SpelledConcat(a: seq<Segment>, b: seq<Segment>)
    ensures Spelled(a + b) == Spelled(a) + Spelled(b)
  {
    if a == [] {
      assert a + b == b;
    } else {
      assert (a + b)[1..] == a[1..] + b;
      SpelledConcat(a[1..], b);
    }
  }

  function Givens(gs: seq<Segment>): seq<string> {
    if gs == [] then [] else (if gs[0].Given? then [gs[0].text] else []) + Givens(gs[1..])
  }

  function Generateds(gs: seq<Segment>): seq<string> {
    if gs == [] then [] else (if gs[0].Generated? then [gs[0].text] else []) + Generateds(gs[1..])
  }

  lemma {:induction false} GivensConcat(a: seq<Segment>, b: seq<Segment>)
    ensures Givens(a + b) == Givens(a) + Givens(b)
  {
    if a == [] {
      assert a + b == b;
    } else {
      var first := if a[0].Given? then [a[0].text] else [];
      assert (a + b)[0] == a[0] && (a + b)[1..] == a[1..] + b;
      GivensConcat(a[1..], b);
      Associative(first, Givens(a[1..]), Givens(b));
    }
  }

  lemma {:induction false} GeneratedsConcat(a: seq<Segment>, b: seq<Segment>)
    ensures Generateds(a + b) == Generateds(a) + Generateds(b)
  {
    if a == [] {
      assert a + b == b;
    } else {
      var first := if a[0].Generated? then [a[0].text] else [];
      assert (a + b)[0] == a[0] && (a + b)[1..] == a[1..] + b;
      GeneratedsConcat(a[1..], b);
      Associative(first, Generateds(a[1..]), Generateds(b));
    }
  }

  lemma Associative(a: seq<string>, b: seq<string>, c: seq<string>)
    ensures a + b + c == a + (b + c)
  {
  }

  /** The builder's own words hold no placeholder and no union; a generated placeholder holds itself. */
  ghost predicate Proper(g: Segment) {
    match g
    case Keyword(s) => Scan(s) == [] && UnionFree(s)
    case Given(_) => true
    case Generated(s) => Scan(s) == [s] && UnionFree(s) && 'J' !in s
  }

  lemma Seam(gs: seq<Segment>)
    requires |gs| > 1 && Spaced(gs)
    ensures EndsAtEdge(gs[0].text) || StartsAtEdge(Spelled(gs[1..]))
  {
  }

  lemma SpelledOne(gs: seq<Segment>)
    requires |gs| == 1
    ensures Spelled(gs) == gs[0].text && Spelled([]) == ""
  {
  }

  /** A spaced text holds a word only if one of its segments does. */
  lemma {:induction false} SpelledFree(gs: seq<Segment>, w: string)
    requires Spaced(gs) && Solid(w) && forall g <- gs :: FreeOf(g.text, w)
    ensures FreeOf(Spelled(gs), w)
  {
    hide FreeOf, EndsAtEdge, StartsAtEdge;
    if gs == [] {
      LetterMissing("", w);
    } else if |gs| == 1 {
      SpelledOne(gs);
    } else {
      SpelledFree(gs[1..], w);
      Seam(gs);
      WordGlue(gs[0].text, Spelled(gs[1..]), w);
    }
  }

  lemma {:induction false} GivenIn(gs: seq<Segment>, g: Segment)
    requires g in gs && g.Given?
    ensures g.text in Givens(gs)
  {
    if gs[0] != g {
      assert g in gs[1..];
      GivenIn(gs[1..], g);
    }
  }

  lemma UnionSolid()
    ensures Solid("UNION") && Solid("JOIN")
  {
  }

  /** A spaced text spells a union only if one of the given texts does. */
  lemma SpelledUnionFree(gs: seq<Segment>)
    requires Spaced(gs) && (forall g <- gs :: Proper(g)) && forall t <- Givens(gs) :: UnionFree(t)
    ensures UnionFree(Spelled(gs))
  {
    hide UnionFree, FreeOf, Spaced, Spelled, Solid;
    forall g <- gs
      ensures FreeOf(g.text, "UNION")
    {
      assert Proper(g);
      if g.Given? {
        GivenIn(gs, g);
      }
      UnionFreeIs(g.text);
    }
    UnionSolid();
    SpelledFree(gs, "UNION");
    UnionFreeIs(Spelled(gs));
  }

  function Scans(gs: seq<Segment>): seq<string> {
    if gs == [] then [] else Scan(gs[0].text) + Scans(gs[1..])
  }

  lemma {:induction false} SpelledScan(gs: seq<Segment>)
    requires Spaced(gs)
    ensures Scan(Spelled(gs)) == Scans(gs)
  {
    hide Scan, EndsAtEdge, StartsAtEdge;
    if gs == [] {
      assert Scan("") == [] by { NothingScanned(); }
    } else if |gs| == 1 {
      SpelledOne(gs);
      assert Scans(gs[1..]) == [];
    } else {
      SpelledScan(gs[1..]);
      Seam(gs);
      ScanGlue(gs[0].text, Spelled(gs[1..]));
    }
  }

  lemma NothingScanned()
    ensures Scan("") == []
  {
  }

  /** What is scanned are the generated placeholders exactly if no given text holds a numeric placeholder. */
  lemma {:induction false} ScansExact(gs: seq<Segment>)
    requires forall g <- gs :: Proper(g)
    ensures |Scans(gs)| >= |Generateds(gs)|
    ensures |Scans(gs)| == |Generateds(gs)| <==> forall t <- Givens(gs) :: Scan(t) == []
    ensures (forall t <- Givens(gs) :: Scan(t) == []) ==> Scans(gs) == Generateds(gs)
  {
    hide Scan, UnionFree;
    if gs != [] {
      ScansExact(gs[1..]);
      var g, rest := gs[0], Givens(gs[1..]);
      assert g in gs && Proper(g);
      assert forall t :: t in Givens(gs) <==> (g.Given? && t == g.text) || t in rest;
      assert (forall t <- Givens(gs) :: Scan(t) == [])
        <==> (g.Given? ==> Scan(g.text) == []) && forall t <- rest :: Scan(t) == [];
      assert |Scans(gs)| == |Scan(g.text)| + |Scans(gs[1..])|;
    }
  }

  /** The character reading of a spaced text. */
  lemma SpelledScanExact(gs: seq<Segment>)
    requires Spaced(gs) && forall g <- gs :: Proper(g)
    ensures Scan(Spelled(gs)) == Generateds(gs) <==> forall t <- Givens(gs) :: Scan(t) == []
  {
    SpelledScan(gs);
    ScansExact(gs);
  }

  // ----- words, numbers, placeholders -----

  lemma {:induction false} NoColon(s: string)
    requires ':' !in s
    ensures Scan(s) == []
  {
    if s != "" {
      NoColon(s[1..]);
    }
  }

  lemma NumberProper(n: nat)
    ensures Proper(Keyword(Number(n, 10))) && 'J' !in Number(n, 10)
  {
    var s := Number(n, 10);
    NumberRoundTrip(n, 10);
    forall c <- s
      ensures c != ':' && c != 'U' && c != 'J'
    {
      assert DigitValue(':') == -1 && DigitValue('U') == -1 && DigitValue('J') == -1;
      var i :| 0 <= i < |s| && s[i] == c;
    }
    NoColon(s);
    assert forall i: nat :: i < |s| ==> s[i] in s;
  }

  lemma {:induction false} AllDigits(s: string)
    requires forall c <- s :: '0' <= c <= '9'
    ensures DigitsOf(s) == s
  {
    if s != "" {
      assert s[0] in s && forall c <- s[1..] :: c in s;
      AllDigits(s[1..]);
      assert s == [s[0]] + s[1..];
    }
  }

  lemma PlaceholderProper(k: nat)
    ensures Proper(Generated(Placeholder(k)))
  {
    var s, d := Placeholder(k), Number(k, 10);
    NumberRoundTrip(k, 10);
    forall c <- d
      ensures '0' <= c <= '9'
    {
      var i :| 0 <= i < |d| && d[i] == c;
      assert 0 <= DigitValue(d[i]) < 10;
    }
    AllDigits(d);
    assert s[1..] == d && s[1 + |d|..] == "";
    assert Scan("") == [];
    assert [":" + d] + [] == [s];
    forall i: nat
      ensures !UnionAt(s, i)
    {
      assert i < |s| ==> s[i] == ':' || s[i] in d;
    }
    assert s == ":" + d && 'J' !in d;
  }
}
