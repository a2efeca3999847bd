/** Monitors turn table names and values into notification channels and keep them subscribed. */
module Monitors {
  import opened Database
  import opened Digits
  import opened QtText

  // ----- channel names -----

  const CHANGED := "changed"

  function TableChannel(table: string): string {
    Lower(table) + CHANGED
  }

  predicate Digit(c: char) {
    '0' <= c <= '9'
  }

  /** The length of the place marker (`%1`, `%12`, `%L3`) a text starts with, 0 if it starts with none. */
  function MarkerLength(s: string): (n: nat)
    ensures n <= |s|
  {
    if s == "" || s[0] != '%' then 0
    else
      var at := if |s| > 1 && s[1] == 'L' then 2 else 1;
      if |s| <= at || !Digit(s[at]) then 0
      else if |s| <= at + 1 || !Digit(s[at + 1]) then at + 1
      else at + 2
  }

  function MarkerNumber(s: string): nat
    requires MarkerLength(s) > 0
  {
    var at := if s[1] == 'L' then 2 else 1;
    var first := s[at] as int - '0' as int;
    if MarkerLength(s) == at + 1 then first else 10 * first + (s[at + 1] as int - '0' as int)
  }

  /** The lowest marker number, 100 if there is no marker. */
  function LowestMarker(s: string): nat
    decreases |s|
  {
    if s == "" then 100
    else if MarkerLength(s) == 0 then LowestMarker(s[1..])
    else
      var rest := LowestMarker(s[MarkerLength(s)..]);
      if MarkerNumber(s) < rest then MarkerNumber(s) else rest
  }

  function ReplaceMarker(s: string, n: nat, a: string): string
    decreases |s|
  {
    if s == "" then ""
    else if MarkerLength(s) == 0 then [s[0]] + ReplaceMarker(s[1..], n, a)
    else
      (if MarkerNumber(s) == n then a else s[..MarkerLength(s)]) + ReplaceMarker(s[MarkerLength(s)..], n, a)
  }

  /** `QString::arg`: every marker with the lowest number is replaced. */
  function Arg(s: string, a: string): string {
    ReplaceMarker(s, LowestMarker(s), a)
  }

  function WithoutChar(s: string, c: char): string {
    if s == "" then "" else (if s[0] == c then "" else [s[0]]) + WithoutChar(s[1..], c)
  }

  /** The braces of a UUID are dropped. */
  function ProcessedValue(value: string): string {
    if '{' in value && '}' in value then WithoutChar(WithoutChar(value, '{'), '}') else value
  }

  /** The identifier of a column is its 32-bit hash in hexadecimal. */
  type Hash = h: nat | h < 0x1_0000_0000

  function ValueChannel(value: string, hash: Hash): string {
    Arg(Arg("%1_%2", ProcessedValue(value)), Number(hash, 16))
  }

  // ----- value channels are not table channels -----

  const TAIL := "_%2"

  lemma {:induction false} ReplaceBeforeTail(p: string, n: nat, a: string)
    ensures ReplaceMarker(p + TAIL, n, a) == ReplaceMarker(p, n, a) + ReplaceMarker(TAIL, n, a)
    decreases |p|
  {
    var s := p + TAIL;
    if p == "" {
      assert s == TAIL;
    } else {
      var m := MarkerLength(p);
      assert MarkerLength(s) == m;
      if m == 0 {
        assert s[1..] == p[1..] + TAIL;
        ReplaceBeforeTail(p[1..], n, a);
      } else {
        assert s[m..] == p[m..] + TAIL && s[..m] == p[..m];
        assert MarkerNumber(s) == MarkerNumber(p);
        ReplaceBeforeTail(p[m..], n, a);
      }
    }
  }

  lemma ReplaceTail(n: nat, a: string)
    ensures ReplaceMarker(TAIL, n, a) == if n == 2 then "_" + a else TAIL
  {
    assert TAIL[1..] == "%2" && "%2"[2..] == "" && "%2"[..2] == "%2";
    assert ReplaceMarker("%2", n, a) == (if n == 2 then a else "%2") + "";
  }

  lemma {:induction false} LowestBeforeTail(p: string)
    ensures LowestMarker(p + TAIL) == if LowestMarker(p) < 2 then LowestMarker(p) else 2
    decreases |p|
  {
    var s := p + TAIL;
    if p == "" {
      assert s == TAIL && TAIL[1..] == "%2" && "%2"[2..] == "";
      assert LowestMarker("") == 100 && LowestMarker("%2") == 2;
    } else {
      var m := MarkerLength(p);
      assert MarkerLength(s) == m;
      if m == 0 {
        assert s[1..] == p[1..] + TAIL;
        LowestBeforeTail(p[1..]);
      } else {
        assert s[m..] == p[m..] + TAIL;
        assert MarkerNumber(s) == MarkerNumber(p);
        LowestBeforeTail(p[m..]);
      }
    }
  }

  lemma ValueArg(v: string)
    ensures Arg("%1_%2", v) == v + TAIL
  {
    assert "%1_%2"[2..] == TAIL && "%1_%2"[..2] == "%1";
    assert TAIL[1..] == "%2" && "%2"[2..] == "";
    assert LowestMarker("") == 100 && LowestMarker("%2") == 2 && LowestMarker(TAIL) == 2;
    assert LowestMarker("%1_%2") == 1;
    ReplaceTail(1, v);
  }

  /** A value channel ends in `_` and hexadecimal digits, or, exactly if the value brings a place marker below 2, in
      the unreplaced `_%2`. */
  lemma ValueChannelEnd(value: string, hash: Hash)
    ensures var v, h := ProcessedValue(value), Number(hash, 16);
      ValueChannel(value, hash)
      == if LowestMarker(v) < 2 then ReplaceMarker(v, LowestMarker(v), h) + TAIL else ReplaceMarker(v, 2, h) + "_" + h
  {
    var v, h := ProcessedValue(value), Number(hash, 16);
    ValueArg(v);
    LowestBeforeTail(v);
    var n := LowestMarker(v + TAIL);
    ReplaceBeforeTail(v, n, h);
    ReplaceTail(n, h);
    assert ReplaceMarker(v, n, h) + ("_" + h) == ReplaceMarker(v, n, h) + "_" + h;
  }

  lemma {:induction false} NothingReplaced(s: string, n: nat, a: string)
    requires n < LowestMarker(s)
    ensures ReplaceMarker(s, n, a) == s
    decreases |s|
  {
    hide MarkerLength, MarkerNumber;
    if s != "" {
      var m := MarkerLength(s);
      if m == 0 {
        NothingReplaced(s[1..], n, a);
        assert [s[0]] + s[1..] == s;
      } else {
        NothingReplaced(s[m..], n, a);
        assert s[..m] + s[m..] == s;
      }
    }
  }

  function Percents(s: string): nat {
    if s == "" then 0 else (if s[0] == '%' then 1 else 0) + Percents(s[1..])
  }

  lemma {:induction false} PercentsConcat(a: string, b: string)
    ensures Percents(a + b) == Percents(a) + Percents(b)
  {
    if a == "" {
      assert a + b == b;
    } else {
      assert (a + b)[1..] == a[1..] + b;
      PercentsConcat(a[1..], b);
    }
  }

  lemma {:induction false} NoPercents(a: string)
    requires '%' !in a
    ensures Percents(a) == 0
  {
    if a != "" {
      NoPercents(a[1..]);
    }
  }

  /** Every marker replaced by a text without a percent sign costs one. */
  lemma {:induction false} ReplacedPercents(s: string, n: nat, a: string)
    requires '%' !in a
    ensures Percents(ReplaceMarker(s, n, a)) <= Percents(s)
    ensures n == LowestMarker(s) && n < 100 ==> Percents(ReplaceMarker(s, n, a)) < Percents(s)
    decreases |s|
  {
    if s != "" {
      var m := MarkerLength(s);
      if m == 0 {
        ReplacedPercents(s[1..], n, a);
        PercentsConcat([s[0]], ReplaceMarker(s[1..], n, a));
        PercentsConcat([s[0]], s[1..]);
        assert [s[0]] + s[1..] == s;
      } else {
        var front, rest := s[..m], s[m..];
        ReplacedPercents(rest, n, a);
        NoPercents(a);
        PercentsConcat(a, ReplaceMarker(rest, n, a));
        PercentsConcat(front, ReplaceMarker(rest, n, a));
        PercentsConcat(front, rest);
        assert front + rest == s;
        assert Percents(front) >= 1;
      }
    }
  }

  lemma HexHasNoPercent(hash: Hash)
    ensures var h := Number(hash, 16); h != "" && '%' !in h
  {
    NumberRoundTrip(hash, 16);
    assert DigitValue('%') == -1;
  }

  lemma TailIsNoHexEnd(front: string, v: string, h: string)
    requires h != "" && '%' !in h
    ensures front + TAIL != v + "_" + h
  {
    var s, u := front + TAIL, v + "_" + h;
    assert s[|s| - 2] == '%';
    assert u[|u| - 2] == if |h| == 1 then '_' else h[|h| - 2];
  }

  /** The channel is the value, `_` and the hash, as a listener expects, exactly if the value brings no place marker
      up to 2. */
  lemma ValueChannelExact(value: string, hash: Hash)
    ensures ValueChannel(value, hash) == ProcessedValue(value) + "_" + Number(hash, 16)
      <==> LowestMarker(ProcessedValue(value)) > 2
  {
    hide ValueChannel, ProcessedValue, Number, LowestMarker, ReplaceMarker, Percents;
    var v, h := ProcessedValue(value), Number(hash, 16);
    ValueChannelEnd(value, hash);
    HexHasNoPercent(hash);
    if LowestMarker(v) > 2 {
      NothingReplaced(v, 2, h);
    } else if LowestMarker(v) == 2 {
      ReplacedPercents(v, 2, h);
      PercentsConcat(ReplaceMarker(v, 2, h), "_" + h);
      PercentsConcat(v, "_" + h);
      assert ReplaceMarker(v, 2, h) + "_" + h == ReplaceMarker(v, 2, h) + ("_" + h);
      assert v + "_" + h == v + ("_" + h);
    } else {
      TailIsNoHexEnd(ReplaceMarker(v, LowestMarker(v), h), v, h);
    }
  }

  /** The value `%1` is lost from its channel. */
  lemma ValueLost(hash: Hash)
    ensures ValueChannel("%1", hash) == Number(hash, 16) + "_%2"
  {
    assert "%1"[2..] == "" && LowestMarker("") == 100 && LowestMarker("%1") == 1;
    ValueChannelEnd("%1", hash);
    assert ReplaceMarker("", 1, Number(hash, 16)) == "";
    assert Number(hash, 16) + "" == Number(hash, 16);
  }

  lemma HexEndIsNotChanged(front: string, h: string, t: string)
    requires IsNumeral(h, 16)
    ensures front + "_" + h != t + CHANGED
  {
    var s, u := front + "_" + h, t + CHANGED;
    assert u[|u| - 3] == 'g' && u[|u| - 2] == 'e';
    if |h| >= 3 {
      assert s[|s| - 3] == h[|h| - 3];
      assert DigitValue('g') == -1;
    } else {
      assert s[|front|] == '_' && (|front| == |s| - 3 || |front| == |s| - 2);
    }
  }

  lemma TailIsNotChanged(front: string, t: string)
    ensures front + TAIL != t + CHANGED
  {
    var s, u := front + TAIL, t + CHANGED;
    assert s[|s| - 1] == '2' && u[|u| - 1] == 'd';
  }

  lemma LowerEnd(front: string, end: string)
    ensures Lower(front + end) == Lower(front) + Lower(end)
  {
  }

  lemma HexChannelDiffers(front: string, h: string, table: string)
    requires IsNumeral(h, 16)
    ensures front + "_" + h != TableChannel(table)
    ensures Lower(front + "_" + h) != TableChannel(table)
  {
    HexEndIsNotChanged(front, h, Lower(table));
    LowerHex(h);
    LowerEnd(front + "_", h);
    LowerEnd(front, "_");
    assert Lower("_") == "_";
    HexEndIsNotChanged(Lower(front), h, Lower(table));
  }

  lemma TailChannelDiffers(front: string, table: string)
    ensures front + TAIL != TableChannel(table)
    ensures Lower(front + TAIL) != TableChannel(table)
  {
    TailIsNotChanged(front, Lower(table));
    LowerEnd(front, TAIL);
    assert Lower(TAIL) == TAIL;
    TailIsNotChanged(Lower(front), Lower(table));
  }

  /** No notification of a value is a table channel, not even after lower-casing. */
  lemma ChannelsDiffer(value: string, hash: Hash, table: string)
    ensures ValueChannel(value, hash) != TableChannel(table)
    ensures Lower(ValueChannel(value, hash)) != TableChannel(table)
  {
    hide ValueChannel, Number, TableChannel, Lower, ProcessedValue, LowestMarker, ReplaceMarker;
    var v, h := ValueChannel(value, hash), Number(hash, 16);
    ValueChannelEnd(value, hash);
    NumberRoundTrip(hash, 16);
    var p := ProcessedValue(value);
    if LowestMarker(p) < 2 {
      TailChannelDiffers(ReplaceMarker(p, LowestMarker(p), h), table);
    } else {
      HexChannelDiffers(ReplaceMarker(p, 2, h), h, table);
    }
  }

  lemma LowerHex(h: string)
    requires IsNumeral(h, 16)
    ensures Lower(h) == h
  {
    forall i | 0 <= i < |h|
      ensures LowerChar(h[i]) == h[i]
    {
      assert 0 <= DigitValue(h[i]);
    }
  }

  // ----- the monitor -----

  datatype Signal = TablesChanged | Notify(notification: string) | Nothing

  /** The channels of the given tables that are not in the list yet, each once, in order. */
  function NewChannels(tables: seq<string>, known: seq<string>): seq<string>
    decreases |tables|
  {
    if tables == [] then []
    else
      var c := TableChannel(tables[0]);
      if c in known then NewChannels(tables[1..], known) else [c] + NewChannels(tables[1..], known + [c])
  }

  /** The channel of some table: its lower-case name and `changed`. */
  ghost predicate ChannelOfSome(tables: seq<string>, c: string) {
    exists t <- tables :: c == Lower(t) + "changed"
  }

  lemma ChannelOfFirst(tables: seq<string>, c: string)
    requires tables != []
    ensures ChannelOfSome(tables, c) <==> c == TableChannel(tables[0]) || ChannelOfSome(tables[1..], c)
  {
    hide Lower;
    assert tables == [tables[0]] + tables[1..];
    assert tables[0] in tables && forall t <- tables[1..] :: t in tables;
  }

  /** The channels added are those of the given tables that are not known yet, each of them once. */
  lemma {:induction false} NewChannelsExact(tables: seq<string>, known: seq<string>)
    ensures forall c :: c in NewChannels(tables, known) <==> c !in known && ChannelOfSome(tables, c)
    ensures forall i, j :: 0 <= i < j < |NewChannels(tables, known)| ==>
      NewChannels(tables, known)[i] != NewChannels(tables, known)[j]
    decreases |tables|
  {
    hide Lower, ChannelOfSome, TableChannel;
    if tables == [] {
      NoChannels();
    } else {
      var c := TableChannel(tables[0]);
      var rest := NewChannels(tables[1..], if c in known then known else known + [c]);
      NewChannelsExact(tables[1..], if c in known then known else known + [c]);
      assert forall j :: 0 <= j < |rest| ==> rest[j] in rest;
      assert NewChannels(tables, known) == if c in known then rest else [c] + rest;
      forall d: string
        ensures d in NewChannels(tables, known) <==> d !in known && ChannelOfSome(tables, d)
      {
        ChannelOfFirst(tables, d);
      }
    }
  }

  lemma NoChannels()
    ensures forall c :: !ChannelOfSome([], c)
  {
  }

  lemma {:induction false} WithoutCharGone(s: string, c: char)
    ensures c !in WithoutChar(s, c)
    ensures c !in s ==> WithoutChar(s, c) == s
  {
    if s != "" {
      WithoutCharGone(s[1..], c);
      assert s == [s[0]] + s[1..];
    }
  }

  lemma {:induction false} WithoutCharLast(s: string, c: char)
    requires c !in s
    ensures WithoutChar(s + [c], c) == s
  {
    if s == "" {
      assert "" + [c] == [c] && [c][1..] == "";
    } else {
      assert (s + [c])[0] == s[0] && (s + [c])[1..] == s[1..] + [c];
      WithoutCharLast(s[1..], c);
    }
  }

  /** A UUID, in braces as its text is, loses them; any other text without both braces is kept. */
  lemma ProcessedExact(u: string)
    requires '{' !in u && '}' !in u
    ensures ProcessedValue("{" + u + "}") == u
    ensures ProcessedValue(u) == u && ProcessedValue("{" + u) == "{" + u && ProcessedValue(u + "}") == u + "}"
  {
    var s := "{" + u + "}";
    assert s[0] == '{' && s[|s| - 1] == '}' && s[1..] == u + "}";
    WithoutCharGone(u + "}", '{');
    assert WithoutChar(s, '{') == u + "}";
    WithoutCharLast(u, '}');
  }

  class SqlMonitor {
    const db: Database
    var tables: seq<string>
    var monitoredValues: seq<string>

    ghost predicate Valid()
      reads this
    {
      && (forall c <- tables :: exists t :: c == TableChannel(t))
      && (forall c <- monitoredValues :: exists v, h :: c == ValueChannel(v, h))
    }

    constructor (db: Database)
      ensures this.db == db && tables == [] && monitoredValues == [] && Valid()
    {
      this.db, tables, monitoredValues := db, [], [];
    }

    method Subscribe(notification: string) returns (isNew: bool)
      modifies db`isOpen, db`subscriptions
      ensures db.isOpen ==> old(db.isOpen)
      ensures isNew <==> notification !in old(db.subscriptions)
      ensures db.subscriptions == if db.isOpen then old(db.subscriptions) + {notification} else old(db.subscriptions)
    {
      if notification in db.subscriptions {
        return false;
      }
      db.Subscribe(notification);
      isNew := true;
    }

    method SetMonitorTables(names: seq<string>)
      requires Valid()
      modifies this`tables, db`isOpen, db`subscriptions
      ensures Valid()
      ensures tables == old(tables) + NewChannels(names, old(tables))
      ensures db.isOpen ==>
        db.subscriptions == old(db.subscriptions) + set c | c in NewChannels(names, old(tables))
    {
      for i := 0 to |names|
        invariant Valid()
        invariant tables + NewChannels(names[i..], tables) == old(tables) + NewChannels(names, old(tables))
        invariant |tables| >= |old(tables)| && tables[..|old(tables)|] == old(tables)
        invariant db.isOpen ==> old(db.isOpen)
        invariant db.isOpen ==> db.subscriptions == old(db.subscriptions) + set c | c in tables[|old(tables)|..]
      {
        assert names[i..][1..] == names[i + 1..];
        var notification := TableChannel(names[i]);
        if notification !in tables {
          assert (tables + [notification])[|old(tables)|..] == tables[|old(tables)|..] + [notification];
          tables := tables + [notification];
          var _ := Subscribe(notification);
        }
      }
      assert names[|names|..] == [];
    }

    method AddValueMonitor(value: string, hash: Hash) returns (isNew: bool)
      requires Valid()
      modifies this`monitoredValues, db`isOpen, db`subscriptions
      ensures Valid()
      ensures monitoredValues == old(monitoredValues) + [ValueChannel(value, hash)]
      ensures isNew <==> ValueChannel(value, hash) !in old(db.subscriptions)
      ensures db.isOpen ==> db.subscriptions == old(db.subscriptions) + {ValueChannel(value, hash)}
    {
      var notification := ValueChannel(value, hash);
      monitoredValues := monitoredValues + [notification];
      isNew := Subscribe(notification);
    }

    method UnsubscribeValuesNotifications()
      requires Valid()
      modifies this`monitoredValues, db`isOpen, db`subscriptions
      ensures Valid() && monitoredValues == []
      ensures db.isOpen ==> old(db.isOpen)
      ensures db.isOpen ==> db.subscriptions == old(db.subscriptions) - set c | c in old(monitoredValues)
    {
      for i := 0 to |monitoredValues|
        invariant db.isOpen ==> old(db.isOpen)
        invariant monitoredValues == old(monitoredValues)
        invariant db.isOpen ==> db.subscriptions == old(db.subscriptions) - set c | c in monitoredValues[..i]
      {
        db.Unsubscribe(monitoredValues[i]);
      }
      assert monitoredValues[..|monitoredValues|] == monitoredValues;
      monitoredValues := [];
    }

    /** A notification of a value is never taken for a table change, and one of a table never for a value. */
    method NotificationReceived(notification: string) returns (signal: Signal)
      requires Valid()
      ensures (exists v, h :: notification == ValueChannel(v, h)) ==>
        signal == if notification in monitoredValues then Notify(notification) else Nothing
      ensures (exists t :: Lower(notification) == TableChannel(t)) ==>
        signal == if Lower(notification) in tables then TablesChanged else Nothing
      ensures signal == TablesChanged <==> Lower(notification) in tables
      ensures signal != TablesChanged ==>
        signal == if notification in monitoredValues then Notify(notification) else Nothing
    {
      if Lower(notification) in tables {
        ghost var t :| Lower(notification) == TableChannel(t);
        if v, h :| notification == ValueChannel(v, h) {
          ChannelsDiffer(v, h, t);
        }
        signal := TablesChanged;
      } else if notification in monitoredValues {
        ghost var v, h :| notification == ValueChannel(v, h);
        if t :| Lower(notification) == TableChannel(t) {
          ChannelsDiffer(v, h, t);
        }
        signal := Notify(notification);
      } else {
        signal := Nothing;
      }
    }

    method Resubscribe(target: Database)
      modifies target`isOpen, target`subscriptions
      ensures target.isOpen ==> old(target.isOpen)
      ensures target.isOpen ==>
        target.subscriptions == old(target.subscriptions) + set c | c in tables + monitoredValues
    {
      for i := 0 to |tables|
        invariant target.isOpen ==> old(target.isOpen)
        invariant target.isOpen ==> target.subscriptions == old(target.subscriptions) + set c | c in tables[..i]
      {
        target.Subscribe(tables[i]);
      }
      for i := 0 to |monitoredValues|
        invariant target.isOpen ==> old(target.isOpen)
        invariant target.isOpen ==>
          target.subscriptions == old(target.subscriptions) + (set c | c in tables) + set c | c in monitoredValues[..i]
      {
        target.Subscribe(monitoredValues[i]);
      }
    }
  }
}
