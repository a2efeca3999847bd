/** Creating the missing tables and columns of a declared schema. */
module SchemaSync {
  import opened QtText

  /** `references` names the table of the column's foreign key, "" if it has none. */
  datatype Column = Column(name: string, references: string)

  datatype Table = Table(name: string, columns: seq<Column>)

  datatype Ddl = CreateTable(table: Table) | AddColumn(name: string, column: Column)

  /** Tables and their columns under the names the server folds unquoted identifiers to. */
  type Tables = map<string, seq<string>>

  predicate HasTable(db: Tables, name: string) {
    Lower(name) in db
  }

  predicate HasColumn(db: Tables, table: string, column: string) {
    HasTable(db, table) && Lower(column) in db[Lower(table)]
  }

  function FoldedNames(columns: seq<Column>): seq<string> {
    seq(|columns|, i requires 0 <= i < |columns| => Lower(columns[i].name))
  }

  predicate Distinct(names: seq<string>) {
    forall i, j :: 0 <= i < j < |names| ==> names[i] != names[j]
  }

  /** The server accepts the statement: nothing exists twice, and no reference points nowhere. A table may refer to
      itself. */
  predicate Legal(db: Tables, d: Ddl) {
    match d
    case CreateTable(t) =>
      && !HasTable(db, t.name)
      && Distinct(FoldedNames(t.columns))
      && forall c <- t.columns :: c.references == "" || HasTable(db, c.references) || Lower(c.references) == Lower(t.name)
    case AddColumn(t, c) =>
      && HasTable(db, t)
      && !HasColumn(db, t, c.name)
      && (c.references == "" || HasTable(db, c.references))
  }

  function Apply(db: Tables, d: Ddl): Tables {
    match d
    case CreateTable(t) => db[Lower(t.name) := FoldedNames(t.columns)]
    case AddColumn(t, c) => if HasTable(db, t) then db[Lower(t) := db[Lower(t)] + [Lower(c.name)]] else db
  }

  // ----- what has to be sent -----

  /** A question for the columns of a table, or a statement, and whether the server grants it. */
  datatype CatalogRequest = Looked(table: string, ok: bool) | Issued(ddl: Ddl, ok: bool)

  /** The declared tables that are not there, in declared order. */
  function MissingTables(schema: seq<Table>, present: set<string>): seq<Ddl> {
    if schema == [] then []
    else
      var last := schema[|schema| - 1];
      MissingTables(schema[..|schema| - 1], present) + if Lower(last.name) in present then [] else [CreateTable(last)]
  }

  /** The declared columns that are not there, in declared order. */
  function MissingColumns(table: string, columns: seq<Column>, present: seq<string>): seq<Ddl> {
    if columns == [] then []
    else
      var last := columns[|columns| - 1];
      MissingColumns(table, columns[..|columns| - 1], present)
      + if Lower(last.name) in present then [] else [AddColumn(table, last)]
  }

  /** The first `n` statements are granted, and the next one, if there is one, is refused. */
  function IssuedUpTo(ds: seq<Ddl>, n: nat): seq<CatalogRequest>
    requires n <= |ds|
  {
    seq(n, i requires 0 <= i < n => Issued(ds[i], true)) + if n < |ds| then [Issued(ds[n], false)] else []
  }

  /** All requests but the last are granted, and the work succeeds exactly if that one is, too. */
  ghost predicate StopsAtRefusal(asked: seq<CatalogRequest>, ok: bool) {
    && (forall i :: 0 <= i < |asked| - 1 ==> asked[i].ok)
    && (ok <==> (asked != [] ==> asked[|asked| - 1].ok))
  }

  lemma Stops(before: seq<CatalogRequest>, asked: seq<CatalogRequest>, ok: bool)
    requires StopsAtRefusal(before, true) && StopsAtRefusal(asked, ok)
    ensures StopsAtRefusal(before + asked, ok)
  {
  }

  lemma UpToStops(ds: seq<Ddl>, n: nat)
    requires n <= |ds|
    ensures StopsAtRefusal(IssuedUpTo(ds, n), n == |ds|)
  {
  }

  /** A table is created exactly if it is declared and not there. */
  lemma {:induction false} MissingTablesExact(schema: seq<Table>, present: set<string>, d: Ddl)
    ensures d in MissingTables(schema, present) <==> d.CreateTable? && d.table in schema && Lower(d.table.name) !in present
  {
    if schema != [] {
      var init := schema[..|schema| - 1];
      MissingTablesExact(init, present, d);
      assert schema == init + [schema[|schema| - 1]];
    }
  }

  /** A column is added exactly if it is declared and not there. */
  lemma {:induction false} MissingColumnsExact(table: string, columns: seq<Column>, present: seq<string>, d: Ddl)
    ensures d in MissingColumns(table, columns, present)
      <==> d.AddColumn? && d.name == table && d.column in columns && Lower(d.column.name) !in present
  {
    if columns != [] {
      var init := columns[..|columns| - 1];
      MissingColumnsExact(table, init, present, d);
      assert columns == init + [columns[|columns| - 1]];
    }
  }

  class Catalog {
    var tables: Tables
    /** All requests so far, in order. */
    ghost var requests: seq<CatalogRequest>
    /** How many statements were sent, and whether every one was legal when it was sent. */
    ghost var issued: nat
    ghost var allLegal: bool

    constructor (tables: Tables)
      ensures this.tables == tables && requests == [] && issued == 0 && allLegal
    {
      this.tables, requests, issued, allLegal := tables, [], 0, true;
    }

    /** An illegal statement fails; a legal one may fail too, without effect. */
    method Exec(d: Ddl) returns (ok: bool)
      modifies this
      ensures issued == old(issued) + 1 && requests == old(requests) + [Issued(d, ok)]
      ensures allLegal == (old(allLegal) && Legal(old(tables), d))
      ensures tables == if ok then Apply(old(tables), d) else old(tables)
      ensures ok ==> Legal(old(tables), d)
    {
      issued, allLegal := issued + 1, allLegal && Legal(tables, d);
      ok := *;
      ok := ok && Legal(tables, d);
      requests := requests + [Issued(d, ok)];
      if ok {
        tables := Apply(tables, d);
      }
    }

    /** The columns a SELECT on the table reports; the query fails if there is no such table. */
    method ColumnsOfTable(name: string) returns (ok: bool, columns: seq<string>)
      modifies this`requests
      ensures requests == old(requests) + [Looked(name, ok)]
      ensures ok ==> HasTable(tables, name) && columns == tables[Lower(name)]
    {
      ok, columns := *, [];
      ok := ok && HasTable(tables, name);
      requests := requests + [Looked(name, ok)];
      if ok {
        columns := tables[Lower(name)];
      }
    }
  }

  // ----- what a schema must be, and when it is in place -----

  /** Names are distinct without regard to case, and foreign keys refer to the table itself or to earlier ones. */
  ghost predicate WellDeclared(schema: seq<Table>) {
    && (forall i, j :: 0 <= i < j < |schema| ==> Lower(schema[i].name) != Lower(schema[j].name))
    && (forall t <- schema :: Distinct(FoldedNames(t.columns)))
    && (forall i :: 0 <= i < |schema| ==> ForeignKeysEarlier(schema, i))
  }

  ghost predicate ForeignKeysEarlier(schema: seq<Table>, i: nat)
    requires i < |schema|
  {
    forall c <- schema[i].columns :: c.references == "" || exists j :: 0 <= j <= i && Lower(schema[j].name) == Lower(c.references)
  }

  ghost predicate TablesPresent(db: Tables, schema: seq<Table>) {
    forall t <- schema :: HasTable(db, t.name)
  }

  ghost predicate ColumnsPresent(db: Tables, t: Table) {
    forall c <- t.columns :: HasColumn(db, t.name, c.name)
  }

  ghost predicate InPlace(db: Tables, schema: seq<Table>) {
    TablesPresent(db, schema) && forall t <- schema :: ColumnsPresent(db, t)
  }

  /** Nothing is lost: every table is still there with all its columns, in front of any new ones. */
  ghost predicate Kept(before: Tables, after: Tables) {
    forall t <- before :: t in after && before[t] <= after[t]
  }

  lemma KeptSame(db: Tables)
    ensures Kept(db, db)
  {
  }

  lemma KeptTable(a: Tables, b: Tables, table: string)
    requires Kept(a, b) && HasTable(a, table)
    ensures HasTable(b, table)
  {
  }

  lemma ColumnsStay(a: Tables, b: Tables, t: Table)
    requires Kept(a, b) && ColumnsPresent(a, t)
    ensures ColumnsPresent(b, t)
  {
    forall c <- t.columns
      ensures HasColumn(b, t.name, c.name)
    {
      KeptColumn(a, b, t.name, c.name);
    }
  }

  lemma TablesStay(a: Tables, b: Tables, schema: seq<Table>)
    requires Kept(a, b) && TablesPresent(a, schema)
    ensures TablesPresent(b, schema)
  {
  }

  lemma KeptTransitive(a: Tables, b: Tables, c: Tables)
    requires Kept(a, b) && Kept(b, c)
    ensures Kept(a, c)
  {
    forall t <- a
      ensures t in c && a[t] <= c[t]
    {
      assert a[t] <= b[t] <= c[t];
    }
  }

  lemma KeptColumn(a: Tables, b: Tables, table: string, column: string)
    requires Kept(a, b) && HasColumn(a, table, column)
    ensures HasColumn(b, table, column)
  {
    var t := Lower(table);
    assert t in b && a[t] <= b[t];
    var i :| 0 <= i < |a[t]| && a[t][i] == Lower(column);
    assert b[t][i] == Lower(column);
  }

  lemma ApplyKeeps(db: Tables, d: Ddl)
    requires Legal(db, d)
    ensures Kept(db, Apply(db, d))
  {
  }

  // ----- the two steps -----

  /** `ok` is false where an exception stops the work. */
  method CreateMissingTables(schema: seq<Table>, catalog: Catalog) returns (ok: bool, ghost n: nat)
    requires WellDeclared(schema)
    modifies catalog
    ensures Kept(old(catalog.tables), catalog.tables)
    ensures catalog.allLegal == old(catalog.allLegal)
    ensures ok ==> TablesPresent(catalog.tables, schema)
    ensures TablesPresent(old(catalog.tables), schema) ==> ok && unchanged(catalog)
    ensures var ds := MissingTables(schema, old(catalog.tables.Keys));
      n <= |ds| && (ok <==> n == |ds|) && catalog.requests == old(catalog.requests) + IssuedUpTo(ds, n)
  {
    hide FoldedNames, Lower, MissingTables, IssuedUpTo, Kept;
    KeptSame(catalog.tables);
    n := 0;
    ghost var ds := MissingTables(schema, catalog.tables.Keys);
    NothingMissing(catalog.tables.Keys, catalog.requests);
    var existingTables := catalog.tables.Keys;
    for i := 0 to |schema|
      invariant Kept(old(catalog.tables), catalog.tables)
      invariant catalog.allLegal == old(catalog.allLegal)
      invariant TablesPresent(catalog.tables, schema[..i])
      invariant forall k <- catalog.tables :: k in existingTables || exists j :: 0 <= j < i && k == Lower(schema[j].name)
      invariant TablesPresent(old(catalog.tables), schema) ==> unchanged(catalog)
      invariant n == |MissingTables(schema[..i], existingTables)|
      invariant catalog.requests == old(catalog.requests) + IssuedUpTo(MissingTables(schema[..i], existingTables), n)
    {
      var table := schema[i];
      TableStep(old(catalog.requests), schema, existingTables, i);
      if Lower(table.name) !in existingTables {
        assert ForeignKeysEarlier(schema, i);
        assert Legal(catalog.tables, CreateTable(table)) by {
          EarlierPresent(catalog.tables, schema, i);
        }
        ghost var before := catalog.tables;
        ok := catalog.Exec(CreateTable(table));
        if !ok {
          TablesUpTo(old(catalog.requests), schema, existingTables, i);
          return;
        }
        n := n + 1;
        ApplyKeeps(before, CreateTable(table));
        KeptTransitive(old(catalog.tables), before, catalog.tables);
        TablesStay(before, catalog.tables, schema[..i]);
      } else {
        KeptTable(old(catalog.tables), catalog.tables, table.name);
      }
      assert schema[..i + 1] == schema[..i] + [table];
    }
    assert schema[..|schema|] == schema;
    ok := true;
  }

  lemma NothingMissing(present: set<string>, log: seq<CatalogRequest>)
    ensures MissingTables([], present) == [] && log + IssuedUpTo([], 0) == log
  {
  }

  lemma TableStep(log: seq<CatalogRequest>, schema: seq<Table>, present: set<string>, i: nat)
    requires i < |schema|
    ensures var ds, more := MissingTables(schema[..i], present), MissingTables(schema[..i + 1], present);
      if Lower(schema[i].name) in present then more == ds else
        |more| == |ds| + 1
        && log + IssuedUpTo(ds, |ds|) + [Issued(CreateTable(schema[i]), true)] == log + IssuedUpTo(more, |more|)
  {
    assert schema[..i + 1][..i] == schema[..i];
  }

  /** What was created before the first refused statement. */
  lemma TablesUpTo(log: seq<CatalogRequest>, schema: seq<Table>, present: set<string>, i: nat)
    requires i < |schema| && Lower(schema[i].name) !in present
    ensures var ds, all := MissingTables(schema[..i], present), MissingTables(schema, present);
      |ds| < |all| && log + IssuedUpTo(ds, |ds|) + [Issued(CreateTable(schema[i]), false)] == log + IssuedUpTo(all, |ds|)
  {
    var ds, more, all := MissingTables(schema[..i], present), MissingTables(schema[..i + 1], present), MissingTables(schema, present);
    assert schema[..i + 1][..i] == schema[..i];
    MissingPrefix(schema, present, i + 1);
    assert more[|ds|] == CreateTable(schema[i]) && more <= all;
    assert IssuedUpTo(ds, |ds|) + [Issued(CreateTable(schema[i]), false)] == IssuedUpTo(all, |ds|);
  }

  lemma {:induction false} MissingPrefix(schema: seq<Table>, present: set<string>, i: nat)
    requires i <= |schema|
    ensures MissingTables(schema[..i], present) <= MissingTables(schema, present)
    decreases |schema|
  {
    if i == |schema| {
      assert schema[..i] == schema;
    } else {
      var init := schema[..|schema| - 1];
      MissingPrefix(init, present, i);
      assert init[..i] == schema[..i];
    }
  }

  lemma EarlierPresent(db: Tables, schema: seq<Table>, i: nat)
    requires i < |schema| && ForeignKeysEarlier(schema, i) && TablesPresent(db, schema[..i])
    ensures forall c <- schema[i].columns ::
      c.references == "" || HasTable(db, c.references) || Lower(c.references) == Lower(schema[i].name)
  {
    forall c <- schema[i].columns | c.references != ""
      ensures HasTable(db, c.references) || Lower(c.references) == Lower(schema[i].name)
    {
      var j :| 0 <= j <= i && Lower(schema[j].name) == Lower(c.references);
      if j < i {
        assert schema[..i][j] == schema[j];
      }
    }
  }

  method CreateMissingColumnsOf(table: Table, catalog: Catalog) returns (ok: bool, ghost looked: bool, ghost n: nat)
    requires Distinct(FoldedNames(table.columns))
    requires HasTable(catalog.tables, table.name)
    requires forall c <- table.columns :: c.references == "" || HasTable(catalog.tables, c.references)
    modifies catalog
    ensures Kept(old(catalog.tables), catalog.tables) && catalog.tables.Keys == old(catalog.tables.Keys)
    ensures catalog.allLegal == old(catalog.allLegal)
    ensures ok ==> ColumnsPresent(catalog.tables, table)
    ensures ColumnsPresent(old(catalog.tables), table) ==>
      catalog.tables == old(catalog.tables) && catalog.issued == old(catalog.issued)
    ensures forall t <- catalog.tables :: t != Lower(table.name) ==> catalog.tables[t] == old(catalog.tables)[t]
    ensures var ds := MissingColumns(table.name, table.columns, old(catalog.tables)[Lower(table.name)]);
      && n <= |ds| && (ok <==> looked && n == |ds|)
      && catalog.requests == old(catalog.requests) + [Looked(table.name, looked)] + if looked then IssuedUpTo(ds, n) else []
  {
    hide MissingColumns, IssuedUpTo, Kept;
    KeptSame(catalog.tables);
    var existing;
    n := 0;
    ok, existing := catalog.ColumnsOfTable(table.name);
    looked := ok;
    if !ok {
      return;
    }
    ghost var log := catalog.requests;
    NoColumnMissing(table.name, existing, log);
    var name := Lower(table.name);
    for i := 0 to |table.columns|
      invariant name in catalog.tables && catalog.tables.Keys == old(catalog.tables.Keys)
      invariant Kept(old(catalog.tables), catalog.tables)
      invariant catalog.allLegal == old(catalog.allLegal)
      invariant forall j :: 0 <= j < i ==> HasColumn(catalog.tables, table.name, table.columns[j].name)
      invariant forall n <- catalog.tables[name] :: n in existing || exists j :: 0 <= j < i && n == FoldedNames(table.columns)[j]
      invariant ColumnsPresent(old(catalog.tables), table) ==>
        catalog.tables == old(catalog.tables) && catalog.issued == old(catalog.issued)
      invariant forall t <- catalog.tables :: t != name ==> catalog.tables[t] == old(catalog.tables)[t]
      invariant n == |MissingColumns(table.name, table.columns[..i], existing)|
      invariant catalog.requests == log + IssuedUpTo(MissingColumns(table.name, table.columns[..i], existing), n)
    {
      ColumnStep(log, table, existing, i);
      var column := table.columns[i];
      var found := false;
      for k := 0 to |existing|
        invariant found <==> Lower(column.name) in existing[..k]
      {
        if existing[k] == Lower(column.name) {
          found := true;
        }
      }
      assert existing[..|existing|] == existing;
      if !found {
        assert FoldedNames(table.columns)[i] == Lower(column.name);
        ghost var before := catalog.tables;
        ok := catalog.Exec(AddColumn(table.name, column));
        if !ok {
          ColumnsUpTo(log, table, existing, i);
          return;
        }
        n := n + 1;
        ApplyKeeps(before, AddColumn(table.name, column));
        KeptTransitive(old(catalog.tables), before, catalog.tables);
        forall j | 0 <= j < i
          ensures HasColumn(catalog.tables, table.name, table.columns[j].name)
        {
          KeptColumn(before, catalog.tables, table.name, table.columns[j].name);
        }
      } else {
        assert Lower(column.name) in old(catalog.tables)[name];
        KeptColumn(old(catalog.tables), catalog.tables, table.name, column.name);
      }
    }
    assert table.columns[..|table.columns|] == table.columns;
    ok := true;
  }

  lemma NoColumnMissing(table: string, present: seq<string>, log: seq<CatalogRequest>)
    ensures MissingColumns(table, [], present) == [] && log + IssuedUpTo([], 0) == log
  {
  }

  lemma ColumnStep(log: seq<CatalogRequest>, table: Table, present: seq<string>, i: nat)
    requires i < |table.columns|
    ensures
      var ds := MissingColumns(table.name, table.columns[..i], present);
      var more := MissingColumns(table.name, table.columns[..i + 1], present);
      if Lower(table.columns[i].name) in present then more == ds else
        |more| == |ds| + 1
        && log + IssuedUpTo(ds, |ds|) + [Issued(AddColumn(table.name, table.columns[i]), true)] == log + IssuedUpTo(more, |more|)
  {
    assert table.columns[..i + 1][..i] == table.columns[..i];
  }

  lemma ColumnsUpTo(log: seq<CatalogRequest>, table: Table, present: seq<string>, i: nat)
    requires i < |table.columns| && Lower(table.columns[i].name) !in present
    ensures
      var ds := MissingColumns(table.name, table.columns[..i], present);
      var all := MissingColumns(table.name, table.columns, present);
      |ds| < |all|
        && log + IssuedUpTo(ds, |ds|) + [Issued(AddColumn(table.name, table.columns[i]), false)] == log + IssuedUpTo(all, |ds|)
  {
    var ds := MissingColumns(table.name, table.columns[..i], present);
    var more := MissingColumns(table.name, table.columns[..i + 1], present);
    var all := MissingColumns(table.name, table.columns, present);
    assert table.columns[..i + 1][..i] == table.columns[..i];
    MissingColumnsPrefix(table.name, table.columns, present, i + 1);
    assert more[|ds|] == AddColumn(table.name, table.columns[i]) && more <= all;
    assert IssuedUpTo(ds, |ds|) + [Issued(AddColumn(table.name, table.columns[i]), false)] == IssuedUpTo(all, |ds|);
  }

  lemma {:induction false} MissingColumnsPrefix(table: string, columns: seq<Column>, present: seq<string>, i: nat)
    requires i <= |columns|
    ensures MissingColumns(table, columns[..i], present) <= MissingColumns(table, columns, present)
    decreases |columns|
  {
    if i == |columns| {
      assert columns[..i] == columns;
    } else {
      var init := columns[..|columns| - 1];
      MissingColumnsPrefix(table, init, present, i);
      assert init[..i] == columns[..i];
    }
  }

  /** What is asked and sent for the columns of all tables if everything is granted. */
  function ColumnRequests(schema: seq<Table>, db: Tables): seq<CatalogRequest>
    requires TablesPresent(db, schema)
  {
    if schema == [] then []
    else
      var t := schema[|schema| - 1];
      var ds := MissingColumns(t.name, t.columns, db[Lower(t.name)]);
      ColumnRequests(schema[..|schema| - 1], db) + ([Looked(t.name, true)] + IssuedUpTo(ds, |ds|))
  }

  lemma ColumnRequestsStep(schema: seq<Table>, db: Tables, i: nat)
    requires i < |schema| && TablesPresent(db, schema)
    ensures
      var t := schema[i];
      var ds := MissingColumns(t.name, t.columns, db[Lower(t.name)]);
      ColumnRequests(schema[..i + 1], db) == ColumnRequests(schema[..i], db) + ([Looked(t.name, true)] + IssuedUpTo(ds, |ds|))
  {
    assert schema[..i + 1][..i] == schema[..i];
  }

  lemma ColumnsOfStop(t: Table, looked: bool, ds: seq<Ddl>, n: nat)
    requires n <= |ds|
    ensures StopsAtRefusal([Looked(t.name, looked)] + (if looked then IssuedUpTo(ds, n) else []), looked && n == |ds|)
  {
  }

  method CreateMissingColumns(schema: seq<Table>, catalog: Catalog) returns (ok: bool, ghost asked: seq<CatalogRequest>)
    requires WellDeclared(schema) && TablesPresent(catalog.tables, schema)
    modifies catalog
    ensures Kept(old(catalog.tables), catalog.tables)
    ensures catalog.allLegal == old(catalog.allLegal)
    ensures ok ==> InPlace(catalog.tables, schema)
    ensures InPlace(old(catalog.tables), schema) ==>
      catalog.tables == old(catalog.tables) && catalog.issued == old(catalog.issued)
    ensures catalog.requests == old(catalog.requests) + asked && StopsAtRefusal(asked, ok)
    ensures ok ==> asked == ColumnRequests(schema, old(catalog.tables))
  {
    hide MissingColumns, IssuedUpTo, StopsAtRefusal, ColumnRequests, Kept, FoldedNames, Lower, ColumnsPresent;
    KeptSame(catalog.tables);
    asked := [];
    NothingStops(old(catalog.tables));
    for i := 0 to |schema|
      invariant Kept(old(catalog.tables), catalog.tables) && catalog.tables.Keys == old(catalog.tables.Keys)
      invariant catalog.allLegal == old(catalog.allLegal)
      invariant forall t <- schema[..i] :: ColumnsPresent(catalog.tables, t)
      invariant InPlace(old(catalog.tables), schema) ==>
        catalog.tables == old(catalog.tables) && catalog.issued == old(catalog.issued)
      invariant catalog.requests == old(catalog.requests) + asked && StopsAtRefusal(asked, true)
      invariant asked == ColumnRequests(schema[..i], old(catalog.tables))
      invariant forall j :: i <= j < |schema| ==>
        catalog.tables[Lower(schema[j].name)] == old(catalog.tables)[Lower(schema[j].name)]
    {
      var table := schema[i];
      assert ForeignKeysEarlier(schema, i);
      ghost var before := catalog.tables;
      ghost var looked, n;
      ghost var ds := MissingColumns(table.name, table.columns, catalog.tables[Lower(table.name)]);
      ok, looked, n := CreateMissingColumnsOf(table, catalog);
      ghost var own := [Looked(table.name, looked)] + if looked then IssuedUpTo(ds, n) else [];
      ColumnsOfStop(table, looked, ds, n);
      Stops(asked, own, ok);
      ColumnRequestsStep(schema, old(catalog.tables), i);
      asked := asked + own;
      if !ok {
        KeptTransitive(old(catalog.tables), before, catalog.tables);
        return;
      }
      KeptTransitive(old(catalog.tables), before, catalog.tables);
      forall t <- schema[..i]
        ensures ColumnsPresent(catalog.tables, t)
      {
        ColumnsStay(before, catalog.tables, t);
      }
      assert schema[..i + 1] == schema[..i] + [table];
    }
    assert schema[..|schema|] == schema;
    ok := true;
  }

  lemma NothingStops(db: Tables)
    ensures StopsAtRefusal([], true) && ColumnRequests([], db) == []
  {
  }

  /** Both steps in order: no statement refers to an absent table, nothing is lost, success leaves the schema in
      place, and on a schema in place nothing is issued. After a failure the same call can be repeated. */
  method CreateMissing(schema: seq<Table>, catalog: Catalog) returns (ok: bool, ghost asked: seq<CatalogRequest>)
    requires WellDeclared(schema)
    modifies catalog
    ensures Kept(old(catalog.tables), catalog.tables)
    ensures catalog.allLegal == old(catalog.allLegal)
    ensures ok ==> InPlace(catalog.tables, schema)
    ensures InPlace(old(catalog.tables), schema) ==> catalog.issued == old(catalog.issued) && catalog.tables == old(catalog.tables)
    ensures catalog.requests == old(catalog.requests) + asked && StopsAtRefusal(asked, ok)
  {
    hide MissingTables, IssuedUpTo, StopsAtRefusal, ColumnRequests;
    ghost var n;
    ghost var ds := MissingTables(schema, catalog.tables.Keys);
    ok, n := CreateMissingTables(schema, catalog);
    asked := IssuedUpTo(ds, n);
    UpToStops(ds, n);
    if ok {
      ghost var before := catalog.tables;
      ghost var more;
      ok, more := CreateMissingColumns(schema, catalog);
      Stops(asked, more, ok);
      asked := asked + more;
      KeptTransitive(old(catalog.tables), before, catalog.tables);
    }
  }
}
