/** The INSERT builder: numbers its placeholders by column position, but binds in key order. */
module InsertBuilder {
  import opened Conditions
  import opened Digits
  import opened QtText
  import opened Tokens
  import opened Printing
  import opened Semantics
  import opened QueryCache

  // ----- the ordered map of values -----

  /** The order of `QString` keys. */
  predicate KeyLess(a: string, b: string) {
    if b == "" then false
    else if a == "" then true
    else a[0] < b[0] || (a[0] == b[0] && KeyLess(a[1..], b[1..]))
  }

  /** The texts first differ at index `i`, and the first one has the smaller character there. */
  predicate SmallerAt(a: string, b: string, i: nat) {
    i < |a| && i < |b| && a[..i] == b[..i] && a[i] < b[i]
  }

  lemma SmallerAtTail(a: string, b: string, i: nat)
    requires a != "" && b != ""
    ensures SmallerAt(a, b, i + 1) <==> a[0] == b[0] && SmallerAt(a[1..], b[1..], i)
  {
    if i + 1 < |a| && i + 1 < |b| {
      assert a[..i + 1] == [a[0]] + a[1..][..i] && b[..i + 1] == [b[0]] + b[1..][..i];
      if a[..i + 1] == b[..i + 1] {
        assert a[..i + 1][0] == b[..i + 1][0];
        assert a[1..][..i] == a[..i + 1][1..] == b[..i + 1][1..] == b[1..][..i];
      }
    }
  }

  /** One key is before another if it is a proper prefix of it, or has the smaller character where they first differ. */
  lemma {:induction false} KeyLessExact(a: string, b: string)
    ensures KeyLess(a, b) <==> (a <= b && a != b) || exists i: nat :: SmallerAt(a, b, i)
  {
    if a != "" && b != "" {
      KeyLessExact(a[1..], b[1..]);
      assert a == [a[0]] + a[1..] && b == [b[0]] + b[1..];
      if i: nat :| SmallerAt(a, b, i) && i > 0 {
        SmallerAtTail(a, b, i - 1);
      }
      if i: nat :| SmallerAt(a[1..], b[1..], i) {
        SmallerAtTail(a, b, i);
      }
      assert a[0] < b[0] ==> SmallerAt(a, b, 0);
    }
  }

  lemma {:induction false} KeyLessTotal(a: string, b: string)
    ensures a == b || KeyLess(a, b) || KeyLess(b, a)
    ensures !(KeyLess(a, b) && KeyLess(b, a)) && !KeyLess(a, a)
  {
    if a != "" && b != "" {
      KeyLessTotal(a[1..], b[1..]);
    }
    if a != "" {
      KeyLessTotal(a[1..], a[1..]);
    }
    assert a != "" && b != "" && a[0] == b[0] && a[1..] == b[1..] ==> a == [a[0]] + a[1..] == [b[0]] + b[1..] == b;
  }

  lemma {:induction false} KeyLessTransitive(a: string, b: string, c: string)
    requires KeyLess(a, b) && KeyLess(b, c)
    ensures KeyLess(a, c)
  {
    if a != "" && a[0] == b[0] == c[0] {
      KeyLessTransitive(a[1..], b[1..], c[1..]);
    }
  }

  type Entries = seq<(string, Variant)>

  function Keys(m: Entries): seq<string> {
    seq(|m|, i requires 0 <= i < |m| => m[i].0)
  }

  function MapValues(m: Entries): seq<Variant> {
    seq(|m|, i requires 0 <= i < |m| => m[i].1)
  }

  predicate Increasing(names: seq<string>) {
    forall i, j :: 0 <= i < j < |names| ==> KeyLess(names[i], names[j])
  }

  function Get(m: Entries, key: string): Result<Variant> {
    if m == [] then Failure
    else if m[0].0 == key then Success(m[0].1)
    else Get(m[1..], key)
  }

  function Put(m: Entries, key: string, value: Variant): Entries {
    if m == [] || KeyLess(key, m[0].0) then [(key, value)] + m
    else if m[0].0 == key then [(key, value)] + m[1..]
    else [m[0]] + Put(m[1..], key, value)
  }

  lemma {:induction false} GetAt(m: Entries, i: nat)
    requires Increasing(Keys(m)) && i < |m|
    ensures Get(m, m[i].0) == Success(m[i].1)
  {
    if i > 0 {
      KeyLessTotal(Keys(m)[0], Keys(m)[i]);
      TailIncreasing(m);
      GetAt(m[1..], i - 1);
    }
  }

  lemma {:induction false} GetFinds(m: Entries, key: string)
    ensures Get(m, key).Success? <==> key in Keys(m)
  {
    if m != [] {
      GetFinds(m[1..], key);
      assert Keys(m) == [m[0].0] + Keys(m[1..]);
    }
  }

  lemma TailIncreasing(m: Entries)
    requires Increasing(Keys(m)) && m != []
    ensures Increasing(Keys(m[1..]))
    ensures forall k <- Keys(m[1..]) :: KeyLess(m[0].0, k)
  {
    forall i, j | 0 <= i < j < |m[1..]|
      ensures KeyLess(Keys(m[1..])[i], Keys(m[1..])[j])
    {
      assert KeyLess(Keys(m)[i + 1], Keys(m)[j + 1]);
    }
    forall k <- Keys(m[1..])
      ensures KeyLess(m[0].0, k)
    {
      var i :| 0 <= i < |m[1..]| && Keys(m[1..])[i] == k;
      assert KeyLess(Keys(m)[0], Keys(m)[i + 1]);
    }
  }

  lemma ConsIncreasing(e: (string, Variant), m: Entries)
    requires Increasing(Keys(m)) && forall k <- Keys(m) :: KeyLess(e.0, k)
    ensures Increasing(Keys([e] + m))
  {
    var all := Keys([e] + m);
    assert all == [e.0] + Keys(m);
    forall i, j | 0 <= i < j < |all|
      ensures KeyLess(all[i], all[j])
    {
      if i > 0 {
        assert KeyLess(Keys(m)[i - 1], Keys(m)[j - 1]);
      } else {
        assert all[j] in Keys(m);
      }
    }
  }

  /** Putting keeps the order, sets this key and leaves all others. */
  lemma {:induction false} PutCorrect(m: Entries, key: string, value: Variant)
    requires Increasing(Keys(m))
    ensures Increasing(Keys(Put(m, key, value)))
    ensures forall k :: k in Keys(Put(m, key, value)) <==> k == key || k in Keys(m)
    ensures forall k :: Get(Put(m, key, value), k) == if k == key then Success(value) else Get(m, k)
  {
    if m == [] || KeyLess(key, m[0].0) {
      forall k <- Keys(m)
        ensures KeyLess(key, k)
      {
        TailIncreasing(m);
        assert Keys(m) == [m[0].0] + Keys(m[1..]);
        if k != m[0].0 {
          KeyLessTransitive(key, m[0].0, k);
        }
      }
      ConsIncreasing((key, value), m);
      assert ([(key, value)] + m)[1..] == m;
      assert Keys([(key, value)] + m) == [key] + Keys(m);
    } else {
      var rest := m[1..];
      assert Keys(m) == [m[0].0] + Keys(rest);
      TailIncreasing(m);
      if m[0].0 == key {
        ConsIncreasing((key, value), rest);
        assert ([(key, value)] + rest)[1..] == rest;
        assert Keys([(key, value)] + rest) == [key] + Keys(rest);
      } else {
        PutCorrect(rest, key, value);
        KeyLessTotal(key, m[0].0);
        var put := Put(rest, key, value);
        ConsIncreasing(m[0], put);
        assert ([m[0]] + put)[1..] == put;
        assert Keys([m[0]] + put) == [m[0].0] + Keys(put);
      }
    }
  }

  // ----- the statement -----

  /** The i-th item of the VALUES list. */
  function Slot(columns: seq<string>, m: Entries, i: nat): string
    requires i < |columns|
  {
    match Get(m, columns[i])
    case Failure => "DEFAULT"
    case Success(v) => if v == Now then "now()" else Placeholder(i)
  }

  /** A column that was given no value is left to its default, the server's time is called, and any other value is
      bound. */
  lemma SlotExact(columns: seq<string>, m: Entries, i: nat)
    requires i < |columns|
    ensures columns[i] !in Keys(m) ==> Slot(columns, m, i) == "DEFAULT"
    ensures Get(m, columns[i]) == Success(Now) ==> Slot(columns, m, i) == "now()"
    ensures columns[i] in Keys(m) && Get(m, columns[i]) != Success(Now) ==> Slot(columns, m, i) == ":" + Number(i, 10)
  {
    GetFinds(m, columns[i]);
  }

  function Slots(columns: seq<string>, m: Entries): seq<string> {
    seq(|columns|, i requires 0 <= i < |columns| => Slot(columns, m, i))
  }

  function InsertText(table: string, columns: seq<string>, m: Entries): string {
    "INSERT INTO " + table
    + (if columns == [] then " DEFAULT VALUES"
       else " (" + Join(columns, ",") + ") VALUES (" + Join(Slots(columns, m), ",") + ")")
  }

  function WithCommas(items: seq<string>): string {
    if items == [] then "" else WithCommas(items[..|items| - 1]) + items[|items| - 1] + ","
  }

  lemma {:induction false} CommasJoin(items: seq<string>)
    requires items != []
    ensures WithCommas(items) == Join(items, ",") + ","
  {
    var init, last := items[..|items| - 1], items[|items| - 1];
    if init == [] {
      assert items == [last];
    } else {
      CommasJoin(init);
      JoinLast(init, last);
      assert items == init + [last];
    }
  }

  lemma {:induction false} JoinLast(init: seq<string>, last: string)
    requires init != []
    ensures Join(init + [last], ",") == Join(init, ",") + "," + last
  {
    if |init| > 1 {
      JoinLast(init[1..], last);
      assert (init + [last])[1..] == init[1..] + [last];
    } else {
      assert (init + [last])[1..] == [last];
    }
  }

  class SqlInsertQueryBuilder {
    const connection: string
    var table: string
    var columnNames: seq<string>
    var values: Entries
    var queryString: string
    var assembled: bool
    var query: Handle

    /** The values are ordered by name, and every one belongs to a column. */
    ghost predicate Valid()
      reads this
    {
      Increasing(Keys(values)) && forall k <- Keys(values) :: k in columnNames
    }

    constructor (connection: string)
      ensures this.connection == connection && columnNames == [] && values == [] && !assembled && Valid()
    {
      this.connection, table, columnNames, values := connection, "", [], [];
      queryString, assembled, query := "", false, Handle(connection, "", map[]);
    }

    method AddColumnValue(name: string, value: Variant)
      requires Valid()
      modifies this`columnNames, this`values
      ensures Valid()
      ensures columnNames == old(columnNames) + [name]
      ensures forall k :: Get(values, k) == if k == name then Success(value) else old(Get(values, k))
    {
      PutCorrect(values, name, value);
      columnNames := columnNames + [name];
      values := Put(values, name, value);
    }

    method AddColumn(name: string)
      requires Valid()
      modifies this`columnNames
      ensures Valid() && columnNames == old(columnNames) + [name]
    {
      columnNames := columnNames + [name];
    }

    method SetToDefaultValues()
      modifies this`values
      ensures Valid() && values == []
    {
      values := [];
    }

    method ColumnList() returns (s: string)
      requires columnNames != []
      ensures s == " (" + Join(columnNames, ",") + ")"
    {
      s := " (";
      for i := 0 to |columnNames|
        invariant s == " (" + WithCommas(columnNames[..i])
      {
        assert columnNames[..i + 1][..i] == columnNames[..i];
        s := s + columnNames[i] + ",";
      }
      assert columnNames[..|columnNames|] == columnNames;
      CommasJoin(columnNames);
      s := s[..|s| - 1] + ")";
    }

    method ValueAt(index: nat) returns (slot: string)
      requires index < |columnNames|
      ensures slot == Slot(columnNames, values, index)
    {
      slot := "DEFAULT";
      match Get(values, columnNames[index]) {
        case Success(value) =>
          if value == Now {
            slot := "now()";
          } else {
            slot := ":" + Number(index, 10);
          }
        case Failure =>
      }
    }

    method ValueList() returns (s: string)
      requires columnNames != []
      ensures s == " VALUES (" + Join(Slots(columnNames, values), ",") + ")"
    {
      hide Slot, Join, Get;
      ghost var slots := Slots(columnNames, values);
      s := " VALUES (";
      for index := 0 to |columnNames|
        invariant s == " VALUES (" + WithCommas(slots[..index])
      {
        assert slots[..index + 1][..index] == slots[..index];
        var slot := ValueAt(index);
        assert slot == slots[index];
        s := s + slot + ",";
      }
      assert slots[..|slots|] == slots;
      CommasJoin(slots);
      s := s[..|s| - 1] + ")";
    }

    /** Assembles, prepares and binds; `ok` is false where a failed prepare throws. */
    method Query(cache: SqlQueryCache, driver: Driver) returns (ok: bool, ghost before: Bindings)
      requires Valid() && Honest(cache.State())
      modifies cache, driver, this`queryString, this`assembled, this`query
      ensures Valid() && Honest(cache.State()) && assembled
      ensures old(assembled) ==> ok && unchanged(this) && unchanged(cache) && unchanged(driver)
      ensures !old(assembled) ==>
        && queryString == InsertText(table, columnNames, values)
        && PreparedOnce(old(cache.State()), old(driver.prepared), driver.prepared, connection, queryString, ok)
        && (ok && !Hit(old(cache.State()), connection, queryString) ==> before == map[])
        && query == if !ok then old(query)
                    else Handle(connection, queryString, if columnNames == [] then before else Bound(before, MapValues(values)))
    {
      ok, before := true, map[];
      if !assembled {
        var s := "INSERT INTO ";
        s := s + table;
        var bindValues := false;
        if columnNames == [] {
          s := s + " DEFAULT VALUES";
        } else {
          var columns := ColumnList();
          var list := ValueList();
          s := InsertParts(s, columns, list);
          bindValues := true;
        }
        queryString := s;
        assembled := true;
        var q;
        ok, q := PrepareQuery(cache, driver, connection, queryString);
        before := q.bound;
        if ok {
          query := q;
          if bindValues {
            BindAll();
          }
        }
      }
    }

    method InsertParts(head: string, columns: string, list: string) returns (s: string)
      requires head == "INSERT INTO " + table && columnNames != []
      requires columns == " (" + Join(columnNames, ",") + ")"
      requires list == " VALUES (" + Join(Slots(columnNames, values), ",") + ")"
      ensures s == InsertText(table, columnNames, values)
    {
      var names, slots := Join(columnNames, ","), Join(Slots(columnNames, values), ",");
      s := head + columns;
      s := s + list;
      assert columns + list == " (" + names + ") VALUES (" + slots + ")";
    }

    method BindAll()
      modifies this`query
      ensures query == old(query).(bound := Bound(old(query).bound, MapValues(values)))
    {
      var list := MapValues(values);
      for i := 0 to |list|
        invariant query == old(query).(bound := BoundUpTo(old(query).bound, list, i))
      {
        if list[i] != Now {
          query := query.(bound := query.bound[Placeholder(i) := DriverForm(list[i])]);
        }
      }
    }
  }

  // ----- placeholders and bindings -----

  /** Slot i is a placeholder. */
  predicate Numbered(columns: seq<string>, m: Entries, i: nat) {
    i < |columns| && Get(m, columns[i]).Success? && Get(m, columns[i]).value != Now
  }

  /** If slot i is a placeholder, it is bound to the value given for column i. */
  predicate SlotBound(columns: seq<string>, m: Entries, i: nat, before: Bindings) {
    Numbered(columns, m, i) ==> BoundTo(Bound(before, MapValues(m)), i, Get(m, columns[i]).value)
  }

  /** For the values at hand that is so exactly if the i-th value in key order is one the driver sees alike. */
  lemma SlotBoundExact(columns: seq<string>, m: Entries, i: nat, before: Bindings)
    requires Numbered(columns, m, i) && CallersOnly(before)
    ensures Slot(columns, m, i) == Placeholder(i)
    ensures SlotBound(columns, m, i, before)
      <==> i < |m| && m[i].1 != Now && DriverForm(m[i].1) == DriverForm(Get(m, columns[i]).value)
  {
    BoundToExact(before, MapValues(m), i, Get(m, columns[i]).value);
  }

  /** The i-th name in key order is that of column i. */
  predicate Agrees(columns: seq<string>, m: Entries, i: nat) {
    Numbered(columns, m, i) ==> i < |m| && m[i].0 == columns[i]
  }

  lemma AgreementBinds(columns: seq<string>, m: Entries, i: nat, before: Bindings)
    requires Increasing(Keys(m)) && Agrees(columns, m, i)
    ensures SlotBound(columns, m, i, before)
  {
    if Numbered(columns, m, i) {
      GetAt(m, i);
      BoundUpToGets(before, MapValues(m), |m|, i);
    }
  }

  /** The same names with other values, the server-side time under the same ones. */
  predicate SameShape(m: Entries, m': Entries) {
    Keys(m) == Keys(m') && forall r :: 0 <= r < |m| && r < |m'| ==> (m[r].1 == Now <==> m'[r].1 == Now)
  }

  function SmallerNames(m: Entries, name: string): set<string> {
    set k | k in Keys(m) && KeyLess(k, name)
  }

  lemma {:induction false} SmallerThanAt(m: Entries, i: nat)
    requires Increasing(Keys(m)) && i < |m|
    ensures |SmallerNames(m, m[i].0)| == i
  {
    var rest := m[1..];
    assert Keys(m) == [m[0].0] + Keys(rest);
    TailIncreasing(m);
    if i == 0 {
      forall k <- Keys(m)
        ensures !KeyLess(k, m[0].0)
      {
        KeyLessTotal(k, m[0].0);
      }
      assert SmallerNames(m, m[0].0) == {};
    } else {
      SmallerThanAt(rest, i - 1);
      assert rest[i - 1] == m[i];
      assert KeyLess(Keys(m)[0], Keys(m)[i]);
      KeyLessTotal(m[0].0, m[0].0);
      assert m[0].0 !in SmallerNames(rest, m[i].0);
      assert SmallerNames(m, m[i].0) == {m[0].0} + SmallerNames(rest, m[i].0);
    }
  }

  lemma RankOf(columns: seq<string>, m: Entries, i: nat) returns (r: nat)
    requires Increasing(Keys(m)) && Numbered(columns, m, i)
    ensures r < |m| && m[r].0 == columns[i] && m[r].1 != Now && |SmallerNames(m, columns[i])| == r
    ensures Agrees(columns, m, i) <==> r == i
  {
    GetFinds(m, columns[i]);
    r :| 0 <= r < |m| && Keys(m)[r] == columns[i];
    GetAt(m, r);
    SmallerThanAt(m, r);
    if Agrees(columns, m, i) {
      SmallerThanAt(m, i);
    }
  }

  /** Entries of the same shape whose r-th value is told apart from all others. */
  function Marked(m: Entries, r: nat): Entries {
    seq(|m|, j requires 0 <= j < |m| =>
      (m[j].0, if m[j].1 == Now then Now else if j == r then Other(1) else Other(0)))
  }

  /** A placeholder is right whatever the values are exactly if as many of the valued columns have smaller names as
      there are columns in front of it. */
  lemma AgreesExact(columns: seq<string>, m: Entries, i: nat, before: Bindings)
    requires Increasing(Keys(m)) && Numbered(columns, m, i) && CallersOnly(before)
    ensures (forall m' :: SameShape(m, m') ==> SlotBound(columns, m', i, before)) <==> |SmallerNames(m, columns[i])| == i
    ensures |SmallerNames(m, columns[i])| == i <==> Agrees(columns, m, i)
  {
    hide SlotBound, SmallerNames, Bound, CallersOnly;
    var r := RankOf(columns, m, i);
    if r == i {
      forall m' | SameShape(m, m')
        ensures SlotBound(columns, m', i, before)
      {
        assert Keys(m')[i] == Keys(m)[i];
        AgreementBinds(columns, m', i, before);
      }
    } else {
      var m' := Marked(m, r);
      assert Keys(m') == Keys(m) && SameShape(m, m');
      assert Keys(m')[r] == columns[i];
      GetAt(m', r);
      SlotBoundExact(columns, m', i, before);
    }
  }

  /** The name stands at place r of the column list and nowhere else. */
  predicate OnlyAt(columns: seq<string>, name: string, r: nat) {
    r < |columns| && forall j :: 0 <= j < |columns| ==> (columns[j] == name <==> j == r)
  }

  /** Every placeholder is right whatever the values are exactly if each column that is given a value other than the
      server-side time is named once, at the place its name has among all valued names. */
  lemma AllAgreeExact(columns: seq<string>, m: Entries, before: Bindings)
    requires Increasing(Keys(m)) && (forall k <- Keys(m) :: k in columns) && CallersOnly(before)
    ensures (forall m', i :: SameShape(m, m') && 0 <= i < |columns| ==> SlotBound(columns, m', i, before))
      <==> forall r :: 0 <= r < |m| && m[r].1 != Now ==> OnlyAt(columns, m[r].0, r)
  {
    hide SlotBound, SameShape, CallersOnly, Numbered, Agrees;
    forall i | 0 <= i < |columns|
      ensures (forall m' :: SameShape(m, m') ==> SlotBound(columns, m', i, before)) <==> Agrees(columns, m, i)
    {
      SlotAgrees(columns, m, i, before);
    }
    AllAgree(columns, m);
    if i :| 0 <= i < |columns| && !Agrees(columns, m, i) {
      var m' :| SameShape(m, m') && !SlotBound(columns, m', i, before);
    } else {
      forall m', i | SameShape(m, m') && 0 <= i < |columns|
        ensures SlotBound(columns, m', i, before)
      {
        assert Agrees(columns, m, i);
      }
    }
  }

  lemma SlotAgrees(columns: seq<string>, m: Entries, i: nat, before: Bindings)
    requires Increasing(Keys(m)) && CallersOnly(before) && i < |columns|
    ensures (forall m' :: SameShape(m, m') ==> SlotBound(columns, m', i, before)) <==> Agrees(columns, m, i)
  {
    hide SmallerNames, Bound, CallersOnly;
    if Numbered(columns, m, i) {
      AgreesExact(columns, m, i, before);
    } else {
      forall m' | SameShape(m, m')
        ensures SlotBound(columns, m', i, before)
      {
        UnnumberedStays(columns, m, m', i);
      }
    }
  }

  lemma UnnumberedStays(columns: seq<string>, m: Entries, m': Entries, i: nat)
    requires Increasing(Keys(m)) && SameShape(m, m') && i < |columns| && !Numbered(columns, m, i)
    ensures !Numbered(columns, m', i)
  {
    if Numbered(columns, m', i) {
      var r := RankOf(columns, m', i);
      assert Keys(m)[r] == Keys(m')[r] == columns[i];
      GetAt(m, r);
    }
  }

  lemma AllAgree(columns: seq<string>, m: Entries)
    requires Increasing(Keys(m)) && forall k <- Keys(m) :: k in columns
    ensures (forall i :: 0 <= i < |columns| ==> Agrees(columns, m, i))
      <==> forall r :: 0 <= r < |m| && m[r].1 != Now ==> OnlyAt(columns, m[r].0, r)
  {
    hide Get;
    forall r, i | 0 <= r < |m| && 0 <= i < |columns| && columns[i] == m[r].0
      ensures Numbered(columns, m, i) <==> m[r].1 != Now
    {
      GetAt(m, r);
    }
    if forall i :: 0 <= i < |columns| ==> Agrees(columns, m, i) {
      forall r | 0 <= r < |m| && m[r].1 != Now
        ensures OnlyAt(columns, m[r].0, r)
      {
        assert Keys(m)[r] in columns;
        var i :| 0 <= i < |columns| && columns[i] == Keys(m)[r];
        forall j | 0 <= j < |columns| && columns[j] == m[r].0
          ensures j == r
        {
          assert Agrees(columns, m, j);
          assert Keys(m)[j] == Keys(m)[r];
          KeyLessTotal(Keys(m)[r], Keys(m)[r]);
        }
        assert i == r;
      }
    } else {
      var i :| 0 <= i < |columns| && !Agrees(columns, m, i);
      var r := RankOf(columns, m, i);
      assert !OnlyAt(columns, m[r].0, r);
    }
  }

  /** Names in increasing order with all DEFAULT columns last suffice, server-side times included. */
  lemma IncreasingAgrees(columns: seq<string>, m: Entries, n: nat, i: nat, before: Bindings)
    requires Increasing(Keys(m)) && n <= |columns| && Increasing(columns[..n])
    requires forall k :: k in Keys(m) <==> k in columns[..n]
    requires forall j :: n <= j < |columns| ==> columns[j] !in Keys(m)
    ensures SlotBound(columns, m, i, before)
  {
    SameNames(Keys(m), columns[..n]);
    if i < |columns| {
      GetFinds(m, columns[i]);
      assert i < n ==> columns[..n][i] == columns[i];
    }
    AgreementBinds(columns, m, i, before);
  }

  /** Two columns named against their order: each gets the other's value. */
  lemma SwappedNames(v: Variant, w: Variant, before: Bindings)
    requires v != Now && w != Now
    ensures
      var m := Put(Put([], "b", v), "a", w);
      var b := Bound(before, MapValues(m));
      && Slots(["b", "a"], m) == [Placeholder(0), Placeholder(1)]
      && Get(m, "b") == Success(v) && Get(m, "a") == Success(w)
      && BoundTo(b, 0, w) && BoundTo(b, 1, v)
      && (DriverForm(v) != DriverForm(w) ==> !BoundTo(b, 0, v) && !BoundTo(b, 1, w))
  {
    var m := Put(Put([], "b", v), "a", w);
    assert m == [("a", w), ("b", v)];
    assert m[1..] == [("b", v)];
    assert Get(m[1..], "b") == Success(v);
    assert Slots(["b", "a"], m) == [Slot(["b", "a"], m, 0), Slot(["b", "a"], m, 1)];
    BoundUpToGets(before, MapValues(m), 2, 0);
    BoundUpToGets(before, MapValues(m), 2, 1);
  }

  /** Two increasing lists of the same names are equal. */
  lemma {:induction false} SameNames(a: seq<string>, b: seq<string>)
    requires Increasing(a) && Increasing(b)
    requires forall k :: k in a <==> k in b
    ensures a == b
  {
    ghost var first := if b == [] then "" else b[0];
    assert b != [] ==> first in b;
    if a != [] {
      assert a[0] in b && b != [] && b[0] in a;
      FirstIsLeast(a, b[0]);
      FirstIsLeast(b, a[0]);
      KeyLessTotal(a[0], b[0]);
      forall k
        ensures k in a[1..] <==> k in b[1..]
      {
        RestNames(a, k);
        RestNames(b, k);
      }
      SameNames(a[1..], b[1..]);
      assert a == [a[0]] + a[1..] && b == [b[0]] + b[1..];
    }
  }

  lemma FirstIsLeast(a: seq<string>, k: string)
    requires Increasing(a) && k in a
    ensures k == a[0] || KeyLess(a[0], k)
  {
  }

  lemma RestNames(a: seq<string>, k: string)
    requires Increasing(a) && a != []
    ensures k in a[1..] <==> k in a && k != a[0]
  {
    KeyLessTotal(a[0], a[0]);
    assert a == [a[0]] + a[1..];
    if k in a[1..] {
      var i :| 0 <= i < |a[1..]| && a[1..][i] == k;
      assert KeyLess(a[0], a[i + 1]);
    }
  }
}
