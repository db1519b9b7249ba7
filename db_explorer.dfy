/** The schema snapshot (internal/utils/db_explorer.go): table name to the set
    of its columns, read from the catalog once; the field allow-list of
    partial user updates. The database is given as its answers. */
module DbExplorer {
  import opened Wrappers
  import opened Sql

  /** `ListOfColumns`: a set of names. */
  type ListOfColumns = set<string>

  /** What selecting every column of one table makes known: the query
      fails, it succeeds but `rows.Columns()` fails, or the column names in
      order. */
  datatype ColumnsAnswer = ColumnsQueryError | ColumnsError | Columns(names: seq<string>)

  /** The catalog answers at startup: the names of the public base tables
      in `information_schema.tables`, and for each table the answer to
      selecting all its columns. */
  datatype Catalog = Catalog(tables: Rows<string>, columnsOf: string -> ColumnsAnswer)

  function Elements(xs: seq<string>): set<string> {
    set x | x in xs
  }

  /** The table names the catalog lists, or an error. */
  function TableNames(tables: Rows<string>): Result<ListOfColumns> {
    if tables.QueryError? || !AllScanned(tables.items) then Err
    else Ok(Elements(ScannedValues(tables.items)))
  }

  /** The column set of a table; an error of `rows.Columns()` is ignored. */
  function ColumnSet(answer: ColumnsAnswer): Result<ListOfColumns> {
    match answer
    case ColumnsQueryError => Err
    case ColumnsError => Ok({})
    case Columns(names) => Ok(Elements(names))
  }

  /** The snapshot `GetDbTablesCols` builds: all or nothing. */
  function Snapshot(catalog: Catalog): (r: Result<map<string, ListOfColumns>>)
    ensures r.Ok? ==> TableNames(catalog.tables).Ok? && r.value.Keys == TableNames(catalog.tables).value
    ensures r.Ok? ==> forall n | n in r.value :: !catalog.columnsOf(n).ColumnsQueryError?
  {
    var names :- TableNames(catalog.tables);
    if exists n | n in names :: catalog.columnsOf(n).ColumnsQueryError? then Err
    else Ok(map n | n in names :: ColumnSet(catalog.columnsOf(n)).value)
  }

  /** `getTablesNames`: every listed name, repeated names once; a failed
      query or scan is an error. */
  method GetTablesNames(tables: Rows<string>) returns (r: Result<ListOfColumns>)
    ensures r == TableNames(tables)
  {
    if tables.QueryError? {
      return Err;
    }
    var names: ListOfColumns := {};
    for i := 0 to |tables.items|
      invariant forall j | 0 <= j < i :: tables.items[j].Scanned?
      invariant names == set j | 0 <= j < i :: tables.items[j].value
    {
      if tables.items[i].ScanError? {
        return Err;
      }
      names := names + {tables.items[i].value};
    }
    assert AllScanned(tables.items);
    var values := ScannedValues(tables.items);
    assert names == Elements(values) by {
      forall x ensures x in names <==> x in values {
        if x in values {
          var j :| 0 <= j < |values| && values[j] == x;
          assert tables.items[j].value == x;
        }
      }
    }
    r := Ok(names);
  }

  /** `getListOfCols`. */
  method GetListOfCols(answer: ColumnsAnswer) returns (r: Result<ListOfColumns>)
    ensures r == ColumnSet(answer)
  {
    if answer.ColumnsQueryError? {
      return Err;
    }
    var colNames := if answer.Columns? then answer.names else [];
    var cols: ListOfColumns := {};
    for i := 0 to |colNames|
      invariant cols == set j | 0 <= j < i :: colNames[j]
    {
      cols := cols + {colNames[i]};
    }
    assert cols == Elements(colNames) by {
      forall x ensures x in cols <==> x in colNames {
        if x in colNames {
          var j :| 0 <= j < |colNames| && colNames[j] == x;
        }
      }
    }
    r := Ok(cols);
  }

  /** `GetDbTablesCols`: the tables in some order, each added with its column
      set; the first failure discards the map built so far. */
  method GetDbTablesCols(catalog: Catalog) returns (r: Result<map<string, ListOfColumns>>)
    ensures r == Snapshot(catalog)
  {
    var names := GetTablesNames(catalog.tables);
    if names.Err? {
      return Err;
    }
    var remaining := names.value;
    var snapshot: map<string, ListOfColumns> := map[];
    while remaining != {}
      invariant remaining <= names.value
      invariant snapshot.Keys == names.value - remaining
      invariant forall n | n in snapshot :: ColumnSet(catalog.columnsOf(n)) == Ok(snapshot[n])
      decreases |remaining|
    {
      var name :| name in remaining;
      var cols := GetListOfCols(catalog.columnsOf(name));
      if cols.Err? {
        return Err;
      }
      snapshot := snapshot[name := cols.value];
      remaining := remaining - {name};
    }
    assert snapshot == map n | n in names.value :: ColumnSet(catalog.columnsOf(n)).value;
    r := Ok(snapshot);
  }

  /** The snapshot is all or nothing: it exists exactly when the table list
      was read and every table's column query succeeded; then its keys are
      exactly the tables and each maps to its column names. */
  lemma SnapshotIsComplete(catalog: Catalog)
    ensures Snapshot(catalog).Ok? <==>
      TableNames(catalog.tables).Ok? &&
      forall n | n in TableNames(catalog.tables).value :: !catalog.columnsOf(n).ColumnsQueryError?
    ensures Snapshot(catalog).Ok? ==>
      && Snapshot(catalog).value.Keys == TableNames(catalog.tables).value
      && forall n | n in Snapshot(catalog).value ::
           Snapshot(catalog).value[n] ==
             (if catalog.columnsOf(n).Columns? then Elements(catalog.columnsOf(n).names) else {})
  {
  }

  /** The field check of `UpdateUser`: a missing table has no columns. */
  predicate IsWhitelisted(snapshot: map<string, ListOfColumns>, table: string, field: string) {
    table in snapshot && field in snapshot[table]
  }

  /** Nothing is excluded: with the snapshot of `user_data`'s real columns
      the credential and identity columns pass the allow-list. */
  lemma SensitiveColumnsAreWhitelisted(catalog: Catalog, columns: seq<string>)
    requires Snapshot(catalog).Ok? && "user_data" in TableNames(catalog.tables).value
    requires catalog.columnsOf("user_data") == Columns(columns)
    requires forall c | c in ["id", "password", "salt", "created_at"] :: c in columns
    ensures forall c | c in ["id", "password", "salt", "created_at"] ::
              IsWhitelisted(Snapshot(catalog).value, "user_data", c)
  {
  }
}
